/** Escaping of configuration values and the text functions of the line parser. */
module YamlQuoting {
  /** Leftmost, non-overlapping replacement. */
  function ReplaceAll(s: string, from: string, to: string): string
    requires from != []
    decreases |s|
  {
    if |s| < |from| then s
    else if s[..|from|] == from then to + ReplaceAll(s[|from|..], from, to)
    else [s[0]] + ReplaceAll(s[1..], from, to)
  }

  function Escape(s: string): string {
    ReplaceAll(ReplaceAll(s, "\\", "\\\\"), "\"", "\\\"")
  }

  function Unescape(s: string): string {
    ReplaceAll(ReplaceAll(s, "\\\"", "\""), "\\\\", "\\")
  }

  function QuoteYaml(s: string): string {
    "\"" + Escape(s) + "\""
  }

  function UnquoteYaml(s: string): string {
    if |s| >= 2 && s[0] == '\"' && s[|s| - 1] == '\"' then Unescape(s[1..|s| - 1])
    else if |s| >= 2 && s[0] == '\'' && s[|s| - 1] == '\'' then s[1..|s| - 1]
    else s
  }

  /** Escaping one character at a time. */
  lemma EscapeStep(s: string, c: char, to: string)
    requires s != []
    ensures ReplaceAll(s, [c], to) == (if s[0] == c then to else [s[0]]) + ReplaceAll(s[1..], [c], to)
  {
    assert s[..1] == [c] <==> s[0] == c;
  }

  /** No escaped text starts with a quote, so a backslash before it is never taken for an escape. */
  lemma EscapedStart(s: string)
    ensures var e := ReplaceAll(s, "\"", "\\\""); e == [] || e[0] != '\"'
  {
    if s != [] {
      EscapeStep(s, '\"', "\\\"");
    }
  }

  lemma {:induction false} QuotesReturn(s: string)
    ensures ReplaceAll(ReplaceAll(s, "\"", "\\\""), "\\\"", "\"") == s
  {
    if s != [] {
      var e, rest := ReplaceAll(s, "\"", "\\\""), ReplaceAll(s[1..], "\"", "\\\"");
      EscapeStep(s, '\"', "\\\"");
      EscapedStart(s[1..]);
      QuotesReturn(s[1..]);
      if s[0] == '\"' {
        assert e[..2] == "\\\"" && e[2..] == rest;
      } else {
        assert e[1..] == rest;
        assert |e| >= 2 ==> e[1] == rest[0];
        assert |e| < 2 ==> rest == [];
      }
    }
  }

  lemma {:induction false} BackslashesReturn(s: string)
    ensures ReplaceAll(ReplaceAll(s, "\\", "\\\\"), "\\\\", "\\") == s
  {
    if s != [] {
      var e, rest := ReplaceAll(s, "\\", "\\\\"), ReplaceAll(s[1..], "\\", "\\\\");
      EscapeStep(s, '\\', "\\\\");
      BackslashesReturn(s[1..]);
      if s[0] == '\\' {
        assert e[..2] == "\\\\" && e[2..] == rest;
      } else {
        assert e[1..] == rest;
        assert |e| < 2 ==> rest == [];
      }
    }
  }

  /** Reading a quoted value gives it back, whatever quotes and backslashes it holds. */
  lemma UnquoteQuote(s: string)
    ensures UnquoteYaml(QuoteYaml(s)) == s
  {
    var q := QuoteYaml(s);
    assert q[1..|q| - 1] == Escape(s);
    QuotesReturn(ReplaceAll(s, "\\", "\\\\"));
    BackslashesReturn(s);
  }

  /** Replacement puts in nothing but the new text. */
  lemma {:induction false} ReplaceKeepsOut(s: string, from: string, to: string, c: char)
    requires from != [] && c !in s && c !in to
    ensures c !in ReplaceAll(s, from, to)
    decreases |s|
  {
    if |s| >= |from| {
      ReplaceKeepsOut(s[1..], from, to, c);
      ReplaceKeepsOut(s[|from|..], from, to, c);
    }
  }

  lemma UnquoteKeepsOut(s: string, c: char)
    requires c !in s && c != '\"' && c != '\\'
    ensures c !in UnquoteYaml(s)
  {
    if |s| >= 2 {
      var inner := s[1..|s| - 1];
      ReplaceKeepsOut(inner, "\\\"", "\"", c);
      ReplaceKeepsOut(ReplaceAll(inner, "\\\"", "\""), "\\\\", "\\", c);
    }
  }

  /** Escaping keeps line breaks in and out. */
  lemma {:induction false} EscapeOneKeeps(s: string, e: char, to: string, c: char)
    requires c != e && c !in to
    ensures c in ReplaceAll(s, [e], to) <==> c in s
    decreases |s|
  {
    if s != [] {
      EscapeStep(s, e, to);
      EscapeOneKeeps(s[1..], e, to, c);
      assert s == [s[0]] + s[1..];
    }
  }

  // ----- Trimming and searching -----

  /** White space as `strings.TrimSpace` sees it. */
  predicate IsSpace(c: char) {
    || '\t' <= c <= '\r' || c == ' ' || c == '\U{0085}' || c == '\U{00A0}' || c == '\U{1680}'
    || '\U{2000}' <= c <= '\U{200A}' || c == '\U{2028}' || c == '\U{2029}' || c == '\U{202F}'
    || c == '\U{205F}' || c == '\U{3000}'
  }

  function TrimLeft(s: string): string {
    if s != [] && IsSpace(s[0]) then TrimLeft(s[1..]) else s
  }

  function TrimRight(s: string): string {
    if s != [] && IsSpace(s[|s| - 1]) then TrimRight(s[..|s| - 1]) else s
  }

  function Trim(s: string): string {
    TrimRight(TrimLeft(s))
  }

  lemma {:induction false} TrimKeepsOut(s: string, c: char)
    ensures c !in s ==> c !in TrimLeft(s) && c !in TrimRight(s)
    decreases |s|
  {
    if s != [] {
      TrimKeepsOut(s[1..], c);
      TrimKeepsOut(s[..|s| - 1], c);
    }
  }

  /** Position of the first `c`, or the length. */
  function IndexOf(s: string, c: char): (n: nat)
    ensures n <= |s| && c !in s[..n] && (n < |s| ==> s[n] == c)
  {
    if s == [] || s[0] == c then 0
    else
      var n := IndexOf(s[1..], c) + 1;
      assert s[..n] == [s[0]] + s[1..][..n - 1];
      n
  }

  lemma IndexIs(s: string, c: char, n: nat)
    requires n <= |s| && c !in s[..n] && (n < |s| ==> s[n] == c)
    ensures IndexOf(s, c) == n
  {
  }

  /** Bytes in UTF-8. */
  function Utf8Length(s: string): nat {
    if s == [] then 0
    else
      var c := s[0] as int;
      (if c < 0x80 then 1 else if c < 0x800 then 2 else if c < 0x1_0000 then 3 else 4) + Utf8Length(s[1..])
  }
}
