/**
 Length limits on stored text: cut at a byte count, then step back to the end of a character.
 Characters are the octet sequences of section 4 of RFC 3629.
 */
module Utf8Truncate {
  type Byte = b: int | 0 <= b < 0x100
  type Bytes = seq<Byte>

  // ----- What the code looks at: the last three bytes -----

  predicate IsTail(b: Byte) { 0x80 <= b < 0xC0 }

  /** The bytes end in a complete one-, two- or three-byte sequence, judged by the leading byte alone. */
  predicate EndsComplete(s: Bytes) {
    var n := |s|;
    || (n >= 1 && s[n - 1] < 0x80)
    || (n >= 2 && IsTail(s[n - 1]) && 0xC0 <= s[n - 2] < 0xE0)
    || (n >= 3 && IsTail(s[n - 1]) && IsTail(s[n - 2]) && 0xE0 <= s[n - 3] < 0xF0)
  }

  method IsUtf8Boundary(s: Bytes) returns (complete: bool)
    ensures complete == EndsComplete(s)
  {
    var i := |s| - 1;
    while i >= 0 && i > |s| - 4
      invariant -1 <= i < |s| && i >= |s| - 4
      invariant forall k :: i < k < |s| ==> IsTail(s[k])
    {
      var b := s[i];
      if b < 0x80 {
        return i == |s| - 1;
      }
      if b >= 0xC0 {
        var need := if b >= 0xF0 then 4 else if b >= 0xE0 then 3 else 2;
        return |s| - i == need;
      }
      i := i - 1;
    }
    return false;
  }

  /** At most `n` bytes dropped from the end, stopping at the first complete ending. */
  function BackedOff(cut: Bytes, n: nat): (r: Bytes)
    ensures r <= cut && |cut| <= |r| + n
  {
    if n == 0 || cut == [] || EndsComplete(cut) then cut else BackedOff(cut[..|cut| - 1], n - 1)
  }

  function Truncated(s: Bytes, max: nat): Bytes {
    if |s| <= max then s else BackedOff(s[..max], 3)
  }

  method Truncate(s: Bytes, max: nat) returns (r: Bytes, truncated: bool)
    ensures r == Truncated(s, max)
    ensures truncated <==> |s| > max
    ensures r <= s && |r| <= max
    ensures if truncated then max <= |r| + 3 else r == s
  {
    if |s| <= max {
      return s, false;
    }
    var cut := s[..max];
    var i := 0;
    while i < 3 && |cut| > 0
      invariant 0 <= i <= 3
      invariant cut <= s[..max]
      invariant BackedOff(cut, 3 - i) == BackedOff(s[..max], 3)
    {
      var complete := IsUtf8Boundary(cut);
      if complete {
        break;
      }
      cut := cut[..|cut| - 1];
      i := i + 1;
    }
    return cut, true;
  }

  // ----- Text: a sequence of characters -----

  /** `UTF8-char` of section 4 of RFC 3629. */
  predicate IsChar(c: Bytes) {
    match |c|
    case 1 => c[0] < 0x80
    case 2 => 0xC2 <= c[0] < 0xE0 && IsTail(c[1])
    case 3 =>
      && IsTail(c[1]) && IsTail(c[2])
      && ( || (c[0] == 0xE0 && 0xA0 <= c[1])
           || 0xE1 <= c[0] < 0xED
           || (c[0] == 0xED && c[1] < 0xA0)
           || 0xEE <= c[0] < 0xF0)
    case 4 =>
      && IsTail(c[1]) && IsTail(c[2]) && IsTail(c[3])
      && ( || (c[0] == 0xF0 && 0x90 <= c[1])
           || 0xF1 <= c[0] < 0xF4
           || (c[0] == 0xF4 && c[1] < 0x90))
    case _ => false
  }

  ghost predicate IsText(cs: seq<Bytes>) {
    forall i :: 0 <= i < |cs| ==> IsChar(cs[i])
  }

  function Flatten(cs: seq<Bytes>): Bytes {
    if cs == [] then [] else Flatten(cs[..|cs| - 1]) + cs[|cs| - 1]
  }

  /** Length of the first `k` characters: the byte position where character `k` starts. */
  function Offset(cs: seq<Bytes>, k: nat): nat
    requires k <= |cs|
  {
    |Flatten(cs[..k])|
  }

  lemma {:induction false} FlattenSplit(cs: seq<Bytes>, k: nat)
    requires k <= |cs|
    ensures Flatten(cs) == Flatten(cs[..k]) + Flatten(cs[k..])
  {
    if k == |cs| {
      assert cs[..k] == cs;
    } else {
      var n := |cs| - 1;
      FlattenSplit(cs[..n], k);
      assert cs[..n][..k] == cs[..k] && cs[..n][k..] == cs[k..][..n - k];
    }
  }

  /** The byte position `max` lies `d` bytes into character `k`. */
  ghost predicate CutsAt(cs: seq<Bytes>, max: nat, k: nat, d: nat) {
    k < |cs| && max == Offset(cs, k) + d && d < |cs[k]|
  }

  lemma {:induction false} CutExists(cs: seq<Bytes>, max: nat) returns (k: nat, d: nat)
    requires max < |Flatten(cs)|
    ensures CutsAt(cs, max, k, d)
    decreases |cs|
  {
    var n := |cs| - 1;
    assert cs[..n + 1] == cs;
    if Offset(cs, n) <= max {
      k, d := n, max - Offset(cs, n);
    } else {
      k, d := CutExists(cs[..n], max);
      assert cs[..n][..k] == cs[..k];
    }
  }

  lemma PrefixOfText(cs: seq<Bytes>, max: nat, k: nat, d: nat)
    requires IsText(cs) && CutsAt(cs, max, k, d)
    ensures max < |Flatten(cs)|
    ensures Flatten(cs)[..max] == Flatten(cs[..k]) + cs[k][..d]
  {
    FlattenSplit(cs, k + 1);
    assert cs[..k + 1][..k] == cs[..k];
  }

  /** Bytes that never end complete are dropped one by one. */
  lemma {:induction false} BackOffInside(base: Bytes, p: Bytes, m: nat)
    requires forall i :: 0 < i <= |p| ==> !EndsComplete(base + p[..i])
    ensures BackedOff(base + p, m) == if m <= |p| then base + p[..|p| - m] else BackedOff(base, m - |p|)
  {
    if p == [] {
      assert base + p == base;
    } else if m == 0 {
      assert p[..|p|] == p;
    } else {
      var s, q := base + p, p[..|p| - 1];
      assert p[..|p|] == p;
      assert s[..|s| - 1] == base + q;
      forall i | 0 < i <= |q| ensures !EndsComplete(base + q[..i]) {
        assert q[..i] == p[..i];
      }
      BackOffInside(base, q, m - 1);
      assert m <= |p| ==> q[..|q| - (m - 1)] == p[..|p| - m];
    }
  }

  /** So are the bytes of a character that was not cut whole. */
  lemma BackOffPart(base: Bytes, c: Bytes, j: nat, m: nat)
    requires IsChar(c) && j < |c|
    ensures BackedOff(base + c[..j], m) == if m <= j then base + c[..j - m] else BackedOff(base, m - j)
  {
    var p := c[..j];
    forall i | 0 < i <= |p| ensures !EndsComplete(base + p[..i]) {
      assert p[..i] == c[..i];
    }
    BackOffInside(base, p, m);
    assert m <= j ==> p[..j - m] == c[..j - m];
  }

  /** Stepping back from whole characters: stays, unless the last one has four bytes. */
  lemma BackOffWhole(cs: seq<Bytes>, m: nat)
    requires IsText(cs) && 0 < m <= 3
    ensures var n := |cs| - 1;
            BackedOff(Flatten(cs), m) ==
            if n >= 0 && |cs[n]| == 4 then Flatten(cs[..n]) + cs[n][..4 - m] else Flatten(cs)
  {
    if cs != [] {
      var n := |cs| - 1;
      var before, last := Flatten(cs[..n]), cs[n];
      var s := before + last;
      if |last| == 4 {
        assert !EndsComplete(s) && s[..|s| - 1] == before + last[..3];
        BackOffPart(before, last, 3, m - 1);
      } else {
        assert EndsComplete(s);
      }
    }
  }

  /** The code steps back past a character it had kept whole. */
  ghost predicate BreaksCharacter(cs: seq<Bytes>, k: nat, d: nat)
    requires k < |cs|
  {
    d < 3 && k > 0 && |cs[k - 1]| == 4
  }

  /**
   Exact outcome of truncating text. The result is the longest run of whole characters within `max`, except
   when the last whole character has four bytes and fewer than three bytes of the next one were cut: then the
   code takes that character for unfinished and leaves its first `d + 1` bytes behind.
   */
  lemma TruncatedText(cs: seq<Bytes>, max: nat, k: nat, d: nat)
    requires IsText(cs) && CutsAt(cs, max, k, d)
    ensures Truncated(Flatten(cs), max) ==
            if BreaksCharacter(cs, k, d) then Flatten(cs[..k - 1]) + cs[k - 1][..d + 1] else Flatten(cs[..k])
  {
    PrefixOfText(cs, max, k, d);
    var base := Flatten(cs[..k]);
    BackOffPart(base, cs[k], d, 3);
    assert Truncated(Flatten(cs), max) == BackedOff(base + cs[k][..d], 3);
    if d < 3 {
      var whole := cs[..k];
      assert IsText(whole);
      BackOffWhole(whole, 3 - d);
      assert k > 0 ==> whole[..k - 1] == cs[..k - 1] && whole[k - 1] == cs[k - 1];
    } else {
      assert base + cs[k][..0] == base;
    }
  }

  /** Position `n` of the text is the start of a character or its end. */
  ghost predicate IsCharacterEnd(cs: seq<Bytes>, n: nat) {
    exists k: nat :: k <= |cs| && Offset(cs, k) == n
  }

  lemma {:induction false} OffsetsIncrease(cs: seq<Bytes>, i: nat, j: nat)
    requires IsText(cs) && i < j <= |cs|
    ensures Offset(cs, i) + |cs[i]| <= Offset(cs, j)
    decreases j
  {
    assert cs[..j][..j - 1] == cs[..j - 1];
    if i < j - 1 {
      OffsetsIncrease(cs, i, j - 1);
    }
  }

  /** The truncated text ends on a character boundary exactly when no character is broken ... */
  lemma TruncatedEndsOnCharacter(cs: seq<Bytes>, max: nat, k: nat, d: nat)
    requires IsText(cs) && CutsAt(cs, max, k, d)
    ensures IsCharacterEnd(cs, |Truncated(Flatten(cs), max)|) <==> !BreaksCharacter(cs, k, d)
  {
    TruncatedText(cs, max, k, d);
    if BreaksCharacter(cs, k, d) {
      var n := Offset(cs, k - 1) + d + 1;
      forall i: nat | i <= |cs| ensures Offset(cs, i) != n {
        if i < k - 1 {
          OffsetsIncrease(cs, i, k - 1);
        } else if i > k - 1 {
          OffsetsIncrease(cs, k - 1, i);
        }
      }
    } else {
      assert Offset(cs, k) == |Truncated(Flatten(cs), max)|;
    }
  }

  /** ... and then it is the longest such prefix; text without four-byte characters is always cut this way. */
  lemma TruncatedIsLongest(cs: seq<Bytes>, max: nat, k: nat, d: nat, other: nat)
    requires IsText(cs) && CutsAt(cs, max, k, d) && !BreaksCharacter(cs, k, d)
    requires IsCharacterEnd(cs, other) && other <= max
    ensures other <= |Truncated(Flatten(cs), max)| <= max
  {
    TruncatedText(cs, max, k, d);
    var i: nat :| i <= |cs| && Offset(cs, i) == other;
    if i > k {
      OffsetsIncrease(cs, k, i);
    } else if i < k {
      OffsetsIncrease(cs, i, k);
    }
  }

  lemma ShortCharactersNeverBreak(cs: seq<Bytes>, max: nat)
    requires IsText(cs) && max < |Flatten(cs)|
    requires forall i :: 0 <= i < |cs| ==> |cs[i]| <= 3
    ensures IsCharacterEnd(cs, |Truncated(Flatten(cs), max)|)
    ensures forall n: nat :: IsCharacterEnd(cs, n) && n <= max ==> n <= |Truncated(Flatten(cs), max)|
  {
    var k, d := CutExists(cs, max);
    TruncatedEndsOnCharacter(cs, max, k, d);
    forall n: nat | IsCharacterEnd(cs, n) && n <= max
      ensures n <= |Truncated(Flatten(cs), max)|
    {
      TruncatedIsLongest(cs, max, k, d, n);
    }
  }

  /** Two four-byte characters, cut after the first: one stray byte of it is kept. */
  lemma FourByteCharacterBroken()
    ensures var c := [0xF0, 0x9F, 0x98, 0x80];
            IsChar(c) && Truncated(c + c, 4) == c[..1]
  {
    var c: Bytes := [0xF0, 0x9F, 0x98, 0x80];
    var cs := [c, c];
    assert cs[..1] == [c] && cs[..0] == [];
    assert Flatten([c]) == c by { assert [c][..0] == []; }
    assert Flatten(cs) == c + c;
    TruncatedText(cs, 4, 1, 0);
  }
}
