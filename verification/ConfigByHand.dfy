/** The printed file character by character, and what is read from a file written by hand. */
module ConfigByHand {
  import opened Options
  import opened YamlQuoting
  import opened ConfigFile
  import ConfigRoundTrip

  // ----- Printing -----

  /** Quotes and backslashes get a backslash, every other character stays. */
  function Escaped(s: string): string {
    if s == "" then ""
    else (if s[0] == '\"' then "\\\"" else if s[0] == '\\' then "\\\\" else [s[0]]) + Escaped(s[1..])
  }

  lemma EscapeBackslash(s: string)
    requires s != "" && s[0] == '\\'
    ensures Escape(s) == "\\\\" + Escape(s[1..])
  {
    var rest := ReplaceAll(s[1..], "\\", "\\\\");
    var e, f := ['\\'] + rest, "\\\\" + rest;
    assert ReplaceAll(s, "\\", "\\\\") == f by {
      EscapeStep(s, '\\', "\\\\");
    }
    assert f[1..] == e && e[1..] == rest;
    assert Escape(s) == ['\\'] + ReplaceAll(e, "\"", "\\\"") by {
      EscapeStep(f, '\"', "\\\"");
    }
    assert ReplaceAll(e, "\"", "\\\"") == ['\\'] + Escape(s[1..]) by {
      EscapeStep(e, '\"', "\\\"");
    }
  }

  lemma EscapeOther(s: string)
    requires s != "" && s[0] != '\\'
    ensures Escape(s) == (if s[0] == '\"' then "\\\"" else [s[0]]) + Escape(s[1..])
  {
    var rest := ReplaceAll(s[1..], "\\", "\\\\");
    EscapeStep(s, '\\', "\\\\");
    EscapeStep([s[0]] + rest, '\"', "\\\"");
    assert ([s[0]] + rest)[1..] == rest;
  }

  lemma {:induction false} EscapeIsEscaped(s: string)
    ensures Escape(s) == Escaped(s)
  {
    if s != "" {
      EscapeIsEscaped(s[1..]);
      if s[0] == '\\' {
        EscapeBackslash(s);
      } else {
        EscapeOther(s);
      }
    }
  }

  function TextLine(name: string, v: string): string {
    if v == "" then "" else name + ": \"" + Escaped(v) + "\"\n"
  }

  function FlagLine(name: string, b: Option<bool>): string {
    if b == None then "" else name + ": " + (if b.value then "true" else "false") + "\n"
  }

  function NoteLine(text: string): string {
    "#" + text + "\n"
  }

  lemma PrintedText(k: Key, v: string)
    ensures Printed(Text(k, v)) == TextLine(Name(k), v)
  {
    EscapeIsEscaped(v);
    if v != "" {
      assert Name(k) + ": " + ("\"" + Escaped(v) + "\"") + "\n" == Name(k) + ": \"" + Escaped(v) + "\"\n";
    }
  }

  lemma PrintedFlag(k: Key, b: Option<bool>)
    ensures Printed(Flag(k, b)) == FlagLine(Name(k), b)
  {
  }

  function Joined(parts: seq<string>): string {
    if parts == [] then "" else parts[0] + Joined(parts[1..])
  }

  lemma {:induction false} PrintedIsJoined(items: seq<Item>, parts: seq<string>)
    requires |items| == |parts| && forall i :: 0 <= i < |items| ==> Printed(items[i]) == parts[i]
    ensures PrintedAll(items) == Joined(parts)
  {
    if items != [] {
      PrintedIsJoined(items[1..], parts[1..]);
    }
  }

  /** The lines of a saved configuration, in their order. */
  function ServerLines(fc: FileConfig, n: Notes): seq<string> {
    [NoteLine(n.head1), NoteLine(n.head2), NoteLine(n.head3), "\n",
     TextLine("http_addr", fc.httpAddr), TextLine("base_url", fc.baseUrl), TextLine("db_path", fc.dbPath),
     TextLine("mode", fc.mode), FlagLine("cookie_secure", fc.cookieSecure)]
  }

  function SecretLines(fc: FileConfig, n: Notes): seq<string> {
    ["\n", NoteLine(n.secret), TextLine("app_secret", fc.appSecret),
     "\n", NoteLine(n.admin), TextLine("admin_username", fc.adminUsername),
     TextLine("admin_password_hash", fc.adminPasswordHash)]
  }

  function UpdateLines(fc: FileConfig, n: Notes): seq<string> {
    ["\n", NoteLine(n.update), FlagLine("update_check_enabled", fc.updateCheckEnabled),
     TextLine("update_channel", fc.updateChannel), TextLine("github_repo", fc.gitHubRepo)]
  }

  /** The text item by item: the value printed under each name, and nothing of the plain password. */
  lemma ServerPrinted(fc: FileConfig, n: Notes, i: nat)
    requires i < 9
    ensures Printed(ServerItems(fc, n)[i]) == ServerLines(fc, n)[i]
  {
    PrintedText(HttpAddr, fc.httpAddr);
    PrintedText(BaseUrl, fc.baseUrl);
    PrintedText(DbPath, fc.dbPath);
    PrintedText(Mode, fc.mode);
    PrintedFlag(CookieSecure, fc.cookieSecure);
  }

  lemma SecretPrinted(fc: FileConfig, n: Notes, i: nat)
    requires i < 7
    ensures Printed(SecretItems(fc, n)[i]) == SecretLines(fc, n)[i]
  {
    PrintedText(AppSecret, fc.appSecret);
    PrintedText(AdminUsername, fc.adminUsername);
    PrintedText(AdminPasswordHash, fc.adminPasswordHash);
  }

  lemma UpdatePrinted(fc: FileConfig, n: Notes, i: nat)
    requires i < 5
    ensures Printed(UpdateItems(fc, n)[i]) == UpdateLines(fc, n)[i]
  {
    PrintedFlag(UpdateCheckEnabled, fc.updateCheckEnabled);
    PrintedText(UpdateChannel, fc.updateChannel);
    PrintedText(GitHubRepo, fc.gitHubRepo);
  }

  lemma SavedLines(fc: FileConfig, n: Notes)
    ensures SavedText(fc, n) == Joined(ServerLines(fc, n) + SecretLines(fc, n) + UpdateLines(fc, n))
  {
    var a, b, c := ServerItems(fc, n), SecretItems(fc, n), UpdateItems(fc, n);
    var items, parts := Items(fc, n), ServerLines(fc, n) + SecretLines(fc, n) + UpdateLines(fc, n);
    forall i | 0 <= i < |items| ensures Printed(items[i]) == parts[i] {
      if i < 9 {
        ServerPrinted(fc, n, i);
      } else if i < 16 {
        SecretPrinted(fc, n, i - 9);
      } else {
        UpdatePrinted(fc, n, i - 16);
      }
    }
    PrintedIsJoined(items, parts);
  }

  // ----- Reading a line -----

  const WHITE: set<char> := {
    '\t', '\n', '\U{000B}', '\U{000C}', '\r', ' ', '\U{0085}', '\U{00A0}', '\U{1680}',
    '\U{2000}', '\U{2001}', '\U{2002}', '\U{2003}', '\U{2004}', '\U{2005}', '\U{2006}', '\U{2007}', '\U{2008}',
    '\U{2009}', '\U{200A}', '\U{2028}', '\U{2029}', '\U{202F}', '\U{205F}', '\U{3000}'}

  predicate IsBlank(s: string) {
    forall c :: c in s ==> c in WHITE
  }

  /** Text that shows at both ends. */
  predicate IsShown(s: string) {
    s != "" && s[0] !in WHITE && s[|s| - 1] !in WHITE
  }

  lemma SpaceIsWhite(c: char)
    ensures IsSpace(c) <==> c in WHITE
  {
    var n := c as int;
    assert c == (n as char);
  }

  lemma {:induction false} LeftTrimmed(a: string, s: string)
    requires IsBlank(a) && (s == "" || s[0] !in WHITE)
    ensures TrimLeft(a + s) == s
    decreases |a|
  {
    if a == "" {
      assert a + s == s;
      if s != "" {
        SpaceIsWhite(s[0]);
      }
    } else {
      SpaceIsWhite(a[0]);
      assert (a + s)[1..] == a[1..] + s;
      LeftTrimmed(a[1..], s);
    }
  }

  lemma {:induction false} RightTrimmed(s: string, d: string)
    requires IsBlank(d) && (s == "" || s[|s| - 1] !in WHITE)
    ensures TrimRight(s + d) == s
    decreases |d|
  {
    if d == "" {
      assert s + d == s;
      if s != "" {
        SpaceIsWhite(s[|s| - 1]);
      }
    } else {
      SpaceIsWhite(d[|d| - 1]);
      assert (s + d)[..|s + d| - 1] == s + d[..|d| - 1];
      RightTrimmed(s, d[..|d| - 1]);
    }
  }

  lemma Trimmed(a: string, s: string, d: string)
    requires IsBlank(a) && IsBlank(d) && (s == "" || IsShown(s))
    ensures Trim(a + s + d) == s
  {
    if s == "" {
      assert a + s + d == a + d + "" && IsBlank(a + d);
      LeftTrimmed(a + d, "");
    } else {
      assert a + s + d == a + (s + d);
      LeftTrimmed(a, s + d);
      RightTrimmed(s, d);
    }
  }

  /** The value a text stands for: without a pair of quotes around it, and as it is otherwise. */
  function Meant(shown: string): string {
    if |shown| >= 2 && shown[0] == shown[|shown| - 1] && shown[0] in {'\'', '\"'} then shown[1..|shown| - 1] else shown
  }

  /** Without a backslash there is nothing to unescape. */
  lemma {:induction false} NothingReplaced(s: string, from: string, to: string, c: char)
    requires from != "" && c in from && c !in s
    ensures ReplaceAll(s, from, to) == s
    decreases |s|
  {
    if |s| >= |from| {
      assert forall k :: 0 <= k < |from| ==> s[..|from|][k] in s;
      NothingReplaced(s[1..], from, to, c);
    }
  }

  lemma UnquotedIsMeant(shown: string)
    requires '\\' !in shown
    ensures UnquoteYaml(shown) == Meant(shown)
  {
    if |shown| >= 2 {
      var inner := shown[1..|shown| - 1];
      NothingReplaced(inner, "\\\"", "\"", '\\');
      NothingReplaced(inner, "\\\\", "\\", '\\');
    }
  }

  lemma ParsesAt(raw: string, key: string, rest: string)
    requires Trim(raw) == key + ":" + rest && key != "" && key[0] != '#' && ':' !in key
    ensures ParseLine(raw) == Some((Trim(key), UnquoteYaml(Trim(rest))))
  {
    var line := key + ":" + rest;
    assert line[..|key|] == key && line[|key| + 1..] == rest;
    IndexIs(line, ':', |key|);
  }

  /** The line without the white space around it: up to the value, or up to the colon if there is none. */
  lemma PairTrimmed(a: string, key: string, c: string, shown: string, d: string)
    requires IsBlank(a) && IsBlank(c) && IsBlank(d) && key != "" && key[0] !in WHITE
    requires shown == "" || IsShown(shown)
    ensures Trim(a + key + ":" + c + shown + d) == key + ":" + if shown == "" then "" else c + shown
  {
    assert ':' !in WHITE;
    if shown == "" {
      Trimmed(a, key + ":", c + d);
      assert a + key + ":" + c + "" + d == a + (key + ":") + (c + d);
    } else {
      Trimmed(a, key + ":" + c + shown, d);
      assert a + key + ":" + c + shown + d == a + (key + ":" + c + shown) + d;
      assert key + ":" + c + shown == key + ":" + (c + shown);
    }
  }

  /** A name, a colon and a value, with white space wherever one likes. */
  lemma ReadsPair(a: string, name: string, b: string, c: string, shown: string, d: string)
    requires IsBlank(a) && IsBlank(b) && IsBlank(c) && IsBlank(d)
    requires IsShown(name) && name[0] != '#' && ':' !in name && (shown == "" || IsShown(shown))
    ensures ParseLine(a + (name + b) + ":" + c + shown + d) == Some((name, UnquoteYaml(shown)))
    ensures '\\' !in shown ==> UnquoteYaml(shown) == Meant(shown)
  {
    var key, rest := name + b, if shown == "" then "" else c + shown;
    PairTrimmed(a, key, c, shown, d);
    assert ':' !in WHITE && ':' !in key;
    ParsesAt(a + key + ":" + c + shown + d, key, rest);
    NameTrimmed(name, b);
    ValueTrimmed(c, shown);
    if '\\' !in shown {
      UnquotedIsMeant(shown);
    }
  }

  lemma NameTrimmed(name: string, b: string)
    requires IsBlank(b) && IsShown(name)
    ensures Trim(name + b) == name
  {
    Trimmed("", name, b);
    assert "" + name + b == name + b;
  }

  lemma ValueTrimmed(c: string, shown: string)
    requires IsBlank(c) && (shown == "" || IsShown(shown))
    ensures Trim(if shown == "" then "" else c + shown) == shown
  {
    Trimmed(if shown == "" then "" else c, shown, "");
    assert c + shown + "" == c + shown;
  }

  /** Blank lines, remarks and lines without a colon say nothing. */
  lemma ReadsNothing(a: string, s: string, d: string)
    requires IsBlank(a) && IsBlank(d) && (s == "" || IsShown(s))
    requires s == "" || s[0] == '#' || ':' !in s
    ensures ParseLine(a + s + d) == None
  {
    Trimmed(a, s, d);
    if s != "" && s[0] != '#' {
      IndexIs(s, ':', |s|);
    }
  }

  // ----- Reading a file -----

  function Lines(lines: seq<string>): string {
    if lines == [] then "" else lines[0] + "\n" + Lines(lines[1..])
  }

  /** What the lines say about a name: the last line that mentions it decides. */
  function LastSaid(lines: seq<string>, name: string): Option<string> {
    if lines == [] then None
    else
      var p := ParseLine(DropCr(lines[|lines| - 1]));
      if p.Some? && p.value.0 == name then Some(p.value.1) else LastSaid(lines[..|lines| - 1], name)
  }

  /** The length of a line in UTF-8 adds up over its characters, as in section 3 of RFC 3629. */
  lemma {:induction false} LengthAddsUp(s: string, c: char)
    ensures Utf8Length(s + [c]) == Utf8Length(s) + (if c <= '\U{007F}' then 1 else if c <= '\U{07FF}' then 2
                                                    else if c <= '\U{FFFF}' then 3 else 4)
  {
    if s == "" {
      assert s + [c] == [c] && [c][1..] == "";
    } else {
      assert (s + [c])[1..] == s[1..] + [c];
      LengthAddsUp(s[1..], c);
    }
  }

  /** A line that the scanner takes: it ends before the next line break and has at most 65535 bytes. */
  predicate IsFitLine(line: string) {
    '\n' !in line && Utf8Length(line) <= 65535
  }

  function KvOf(kv: Kv, lines: seq<string>): Kv
    decreases |lines|
  {
    if lines == [] then kv else WithLine(KvOf(kv, lines[..|lines| - 1]), DropCr(lines[|lines| - 1]))
  }

  lemma {:induction false} KvOfFirst(kv: Kv, lines: seq<string>)
    requires lines != []
    ensures KvOf(kv, lines) == KvOf(WithLine(kv, DropCr(lines[0])), lines[1..])
    decreases |lines|
  {
    if |lines| > 1 {
      var p := lines[..|lines| - 1];
      KvOfFirst(kv, p);
      assert p[1..] == lines[1..][..|lines| - 2];
    } else {
      assert lines[..0] == [] && lines[1..] == [];
    }
  }

  lemma {:induction false} LinesScanned(kv: Kv, lines: seq<string>, last: string)
    requires (forall l :: l in lines ==> IsFitLine(l)) && IsFitLine(last)
    ensures ScanFrom(kv, Lines(lines) + last) == Ok(WithLine(KvOf(kv, lines), DropCr(last)))
    decreases |lines|
  {
    if lines == [] {
      assert Lines(lines) + last == last;
      LastScanned(kv, last);
    } else {
      var rest := Lines(lines[1..]) + last;
      assert Lines(lines) + last == lines[0] + "\n" + rest;
      assert lines[0] in lines && IsFitLine(lines[0]);
      ConfigRoundTrip.ScanLine(kv, lines[0], rest);
      LinesScanned(WithLine(kv, DropCr(lines[0])), lines[1..], last);
      KvOfFirst(kv, lines);
    }
  }

  /** The last line needs no line break. */
  lemma LastScanned(kv: Kv, last: string)
    requires IsFitLine(last)
    ensures ScanFrom(kv, last) == Ok(WithLine(kv, DropCr(last)))
  {
    if last != "" {
      IndexIs(last, '\n', |last|);
      assert last[..|last|] == last;
      assert ScanFrom(kv, last) == ScanFrom(WithLine(kv, DropCr(last)), "");
    }
  }

  lemma {:induction false} KvIsLastSaid(lines: seq<string>, name: string)
    ensures var kv, said := KvOf(map[], lines), LastSaid(lines, name);
            if said.Some? then name in kv && kv[name] == said.value else name !in kv
    decreases |lines|
  {
    if lines != [] {
      KvIsLastSaid(lines[..|lines| - 1], name);
    }
  }

  function SaidText(lines: seq<string>, name: string): string {
    var said := LastSaid(lines, name);
    if said == None then "" else said.value
  }

  /** What counts as true and as false; anything else leaves a flag unset. */
  function SaidFlag(lines: seq<string>, name: string): Option<bool> {
    var v := Trim(SaidText(lines, name));
    if v in {"1", "t", "T", "TRUE", "true", "True"} then Some(true)
    else if v in {"0", "f", "F", "FALSE", "false", "False"} then Some(false)
    else None
  }

  lemma FieldsOf(kv: Kv, lines: seq<string>)
    requires kv == KvOf(map[], lines)
    ensures FromKv(kv) ==
            FileConfig(SaidText(lines, "http_addr"), SaidText(lines, "base_url"), SaidText(lines, "db_path"),
                       SaidText(lines, "mode"), SaidFlag(lines, "cookie_secure"), SaidText(lines, "app_secret"),
                       SaidText(lines, "admin_username"), SaidText(lines, "admin_password"),
                       SaidText(lines, "admin_password_hash"), SaidFlag(lines, "update_check_enabled"),
                       SaidText(lines, "update_channel"), SaidText(lines, "github_repo"))
  {
    forall k: Key ensures Get(kv, k) == SaidText(lines, Name(k)) {
      KvIsLastSaid(lines, Name(k));
    }
    FlagSaid(kv, lines, CookieSecure);
    FlagSaid(kv, lines, UpdateCheckEnabled);
  }

  lemma FlagSaid(kv: Kv, lines: seq<string>, k: Key)
    requires Get(kv, k) == SaidText(lines, Name(k))
    ensures BoolPtr(kv, k) == SaidFlag(lines, Name(k))
  {
  }

  /** A file of any lines, the last one with or without a line break: each field is what the last line about it says. */
  lemma LoadsLastSaid(lines: seq<string>, last: string)
    requires (forall l :: l in lines ==> IsFitLine(l)) && IsFitLine(last)
    ensures var all := lines + [last];
            LoadedFrom(Lines(lines) + last) ==
            Ok(FileConfig(SaidText(all, "http_addr"), SaidText(all, "base_url"), SaidText(all, "db_path"),
                          SaidText(all, "mode"), SaidFlag(all, "cookie_secure"), SaidText(all, "app_secret"),
                          SaidText(all, "admin_username"), SaidText(all, "admin_password"),
                          SaidText(all, "admin_password_hash"), SaidFlag(all, "update_check_enabled"),
                          SaidText(all, "update_channel"), SaidText(all, "github_repo")))
  {
    var all := lines + [last];
    LinesScanned(map[], lines, last);
    assert all[..|all| - 1] == lines && all[|all| - 1] == last;
    FieldsOf(KvOf(map[], all), all);
  }

  /** One line that is too long spoils the file. */
  lemma {:induction false} TooLongLine(kv: Kv, lines: seq<string>, long: string, rest: string)
    requires (forall l :: l in lines ==> IsFitLine(l)) && '\n' !in long && Utf8Length(long) > 65535
    ensures ScanFrom(kv, Lines(lines) + (long + "\n" + rest)) == LineTooLong
    decreases |lines|
  {
    if lines == [] {
      ConfigRoundTrip.ScanLine(kv, long, rest);
      assert Lines(lines) + (long + "\n" + rest) == long + "\n" + rest;
    } else {
      var after := Lines(lines[1..]) + (long + "\n" + rest);
      assert Lines(lines) + (long + "\n" + rest) == lines[0] + "\n" + after;
      assert lines[0] in lines && IsFitLine(lines[0]);
      ConfigRoundTrip.ScanLine(kv, lines[0], after);
      TooLongLine(WithLine(kv, DropCr(lines[0])), lines[1..], long, rest);
    }
  }
}
