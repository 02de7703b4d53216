/** Reading a saved configuration gives it back, except for the plain password, which is never written. */
module ConfigRoundTrip {
  import opened Options
  import opened YamlQuoting
  import opened ConfigFile

  // ----- One line -----

  lemma TrimNothing(s: string)
    requires s != [] && !IsSpace(s[0]) && !IsSpace(s[|s| - 1])
    ensures Trim(s) == s
  {
  }

  /** What the parser should find in the line of an item. */
  function Entry(i: Item): Option<(string, string)> {
    match i
    case Text(key, value) => if value == "" then None else Some((Name(key), value))
    case Flag(key, flag) => if flag.None? then None else Some((Name(key), FlagText(flag.value)))
    case _ => None
  }

  /** A name, a colon, a blank and a value that shows its ends. */
  lemma PairLine(name: string, shown: string)
    requires name != "" && forall c :: c in name ==> IsNameChar(c)
    requires shown != "" && !IsSpace(shown[0]) && !IsSpace(shown[|shown| - 1])
    ensures ParseLine(name + ": " + shown) == Some((name, UnquoteYaml(shown)))
  {
    var line := name + ": " + shown;
    assert line[0] == name[0] && name[0] in name && name[|name| - 1] in name;
    assert line[|line| - 1] == shown[|shown| - 1];
    TrimNothing(line);
    TrimNothing(name);
    assert line[..|name|] == name;
    IndexIs(line, ':', |name|);
    var rest := line[|name| + 1..];
    assert rest == " " + shown && rest[1..] == shown;
    assert TrimLeft(rest) == TrimLeft(shown);
    TrimNothing(shown);
  }

  lemma NameLine(k: Key, shown: string)
    requires shown != "" && !IsSpace(shown[0]) && !IsSpace(shown[|shown| - 1])
    ensures ParseLine(DropCr(Name(k) + ": " + shown)) == Some((Name(k), UnquoteYaml(shown)))
  {
    NameChars(k);
    var line := Name(k) + ": " + shown;
    assert line[|line| - 1] == shown[|shown| - 1];
    PairLine(Name(k), shown);
  }

  lemma LineParses(i: Item)
    requires LineOf(i).Some?
    ensures ParseLine(DropCr(LineOf(i).value)) == Entry(i)
  {
    match i
    case Note(text) =>
      var line := DropCr("#" + text);
      assert line[0] == '#';
      NoteTrimmed(line);
    case Blank =>
    case Text(key, value) =>
      UnquoteQuote(value);
      NameLine(key, QuoteYaml(value));
    case Flag(key, flag) =>
      NameLine(key, FlagText(flag.value));
  }

  lemma {:induction false} NoteTrimmed(line: string)
    requires line != "" && line[0] == '#'
    ensures Trim(line) != "" && Trim(line)[0] == '#'
    decreases |line|
  {
    assert TrimLeft(line) == line;
    if IsSpace(line[|line| - 1]) {
      NoteTrimmed(line[..|line| - 1]);
      assert TrimLeft(line[..|line| - 1]) == line[..|line| - 1];
    }
  }

  // ----- The whole text -----

  function WithEntry(kv: Kv, i: Item): Kv {
    if Entry(i).None? then kv else kv[Entry(i).value.0 := Entry(i).value.1]
  }

  function KvAfter(kv: Kv, items: seq<Item>): Kv
    decreases |items|
  {
    if items == [] then kv else KvAfter(WithEntry(kv, items[0]), items[1..])
  }

  predicate OneLine(i: Item) {
    LineOf(i).Some? ==> '\n' !in LineOf(i).value
  }

  predicate Fits(i: Item) {
    LineOf(i).Some? ==> Utf8Length(LineOf(i).value) <= MAX_LINE
  }

  lemma ScanLine(kv: Kv, line: string, rest: string)
    requires '\n' !in line
    ensures ScanFrom(kv, line + "\n" + rest) ==
            if Utf8Length(line) > MAX_LINE then LineTooLong else ScanFrom(WithLine(kv, DropCr(line)), rest)
  {
    var text := line + "\n" + rest;
    assert text[..|line|] == line;
    IndexIs(text, '\n', |line|);
    assert text[|line| + 1..] == rest;
  }

  /** Items that print to single lines are read back one by one, up to the first that is too long. */
  lemma {:induction false} ScanItems(kv: Kv, items: seq<Item>)
    requires forall i :: i in items ==> OneLine(i)
    ensures ScanFrom(kv, PrintedAll(items)) ==
            if forall i :: i in items ==> Fits(i) then Ok(KvAfter(kv, items)) else LineTooLong
    decreases |items|
  {
    if items != [] {
      var i, rest := items[0], items[1..];
      assert i in items && forall j :: j in items <==> j == i || j in rest;
      assert PrintedAll(items) == Printed(i) + PrintedAll(rest);
      if LineOf(i).None? {
        assert PrintedAll(items) == PrintedAll(rest);
        assert WithEntry(kv, i) == kv;
        ScanItems(kv, rest);
      } else {
        ScanLine(kv, LineOf(i).value, PrintedAll(rest));
        LineParses(i);
        ScanItems(WithEntry(kv, i), rest);
      }
    }
  }

  // ----- Which item sets a key -----

  predicate Touches(i: Item, k: Key) {
    (i.Text? || i.Flag?) && i.key == k
  }

  function Setting(i: Item, k: Key): Option<string> {
    if Touches(i, k) && Entry(i).Some? then Some(Entry(i).value.1) else None
  }

  function LastSetting(items: seq<Item>, k: Key): Option<string> {
    if items == [] then None
    else Coalesce(LastSetting(items[1..], k), Setting(items[0], k))
  }

  lemma {:induction false} Lookup(kv: Kv, items: seq<Item>, k: Key)
    ensures var kv', v := KvAfter(kv, items), LastSetting(items, k);
            if v.Some? then Name(k) in kv' && kv'[Name(k)] == v.value
            else (Name(k) in kv' <==> Name(k) in kv) && (Name(k) in kv ==> kv'[Name(k)] == kv[Name(k)])
    decreases |items|
  {
    if items != [] {
      if items[0].Text? || items[0].Flag? {
        NamesDiffer(items[0].key, k);
      }
      Lookup(WithEntry(kv, items[0]), items[1..], k);
    }
  }

  lemma {:induction false} LastOfConcat(a: seq<Item>, b: seq<Item>, k: Key)
    ensures LastSetting(a + b, k) == Coalesce(LastSetting(b, k), LastSetting(a, k))
  {
    if a == [] {
      assert a + b == b;
    } else {
      assert (a + b)[1..] == a[1..] + b;
      LastOfConcat(a[1..], b, k);
    }
  }

  lemma {:induction false} Untouched(items: seq<Item>, k: Key)
    requires forall j :: 0 <= j < |items| ==> !Touches(items[j], k)
    ensures LastSetting(items, k).None?
  {
    if items != [] {
      Untouched(items[1..], k);
    }
  }

  lemma SetOnce(items: seq<Item>, k: Key, i: nat)
    requires i < |items| && forall j :: 0 <= j < |items| && j != i ==> !Touches(items[j], k)
    ensures LastSetting(items, k) == Setting(items[i], k)
  {
    var a, b := items[..i], items[i + 1..];
    Untouched(a, k);
    Untouched(b, k);
    LastOfConcat([items[i]], b, k);
    LastOfConcat(a, [items[i]] + b, k);
    assert [items[i]][1..] == [];
    assert LastSetting([items[i]], k) == Setting(items[i], k);
    assert items == a + ([items[i]] + b);
  }

  /** The value a configuration has for a key, as text. */
  function Held(fc: FileConfig, k: Key): Option<string> {
    match k
    case HttpAddr => NonEmpty(fc.httpAddr)
    case BaseUrl => NonEmpty(fc.baseUrl)
    case DbPath => NonEmpty(fc.dbPath)
    case Mode => NonEmpty(fc.mode)
    case CookieSecure => FlagHeld(fc.cookieSecure)
    case AppSecret => NonEmpty(fc.appSecret)
    case AdminUsername => NonEmpty(fc.adminUsername)
    case AdminPassword => None
    case AdminPasswordHash => NonEmpty(fc.adminPasswordHash)
    case UpdateCheckEnabled => FlagHeld(fc.updateCheckEnabled)
    case UpdateChannel => NonEmpty(fc.updateChannel)
    case GitHubRepo => NonEmpty(fc.gitHubRepo)
  }

  function NonEmpty(v: string): Option<string> {
    if v == "" then None else Some(v)
  }

  function FlagHeld(b: Option<bool>): Option<string> {
    if b.None? then None else Some(FlagText(b.value))
  }

  lemma ServerSettings(fc: FileConfig, n: Notes, k: Key)
    ensures LastSetting(ServerItems(fc, n), k) ==
            if k in {HttpAddr, BaseUrl, DbPath, Mode, CookieSecure} then Held(fc, k) else None
  {
    var s := ServerItems(fc, n);
    match k
    case HttpAddr => SetOnce(s, k, 4);
    case BaseUrl => SetOnce(s, k, 5);
    case DbPath => SetOnce(s, k, 6);
    case Mode => SetOnce(s, k, 7);
    case CookieSecure => SetOnce(s, k, 8);
    case _ => Untouched(s, k);
  }

  lemma SecretSettings(fc: FileConfig, n: Notes, k: Key)
    ensures LastSetting(SecretItems(fc, n), k) ==
            if k in {AppSecret, AdminUsername, AdminPasswordHash} then Held(fc, k) else None
  {
    var s := SecretItems(fc, n);
    match k
    case AppSecret => SetOnce(s, k, 2);
    case AdminUsername => SetOnce(s, k, 5);
    case AdminPasswordHash => SetOnce(s, k, 6);
    case _ => Untouched(s, k);
  }

  lemma UpdateSettings(fc: FileConfig, n: Notes, k: Key)
    ensures LastSetting(UpdateItems(fc, n), k) ==
            if k in {UpdateCheckEnabled, UpdateChannel, GitHubRepo} then Held(fc, k) else None
  {
    var s := UpdateItems(fc, n);
    match k
    case UpdateCheckEnabled => SetOnce(s, k, 2);
    case UpdateChannel => SetOnce(s, k, 3);
    case GitHubRepo => SetOnce(s, k, 4);
    case _ => Untouched(s, k);
  }

  predicate Holds(kv: Kv, fc: FileConfig, k: Key) {
    var v := Held(fc, k);
    if v.Some? then Name(k) in kv && kv[Name(k)] == v.value else Name(k) !in kv
  }

  lemma ItemsHold(fc: FileConfig, n: Notes, k: Key)
    ensures Holds(KvAfter(map[], Items(fc, n)), fc, k)
  {
    ServerSettings(fc, n, k);
    SecretSettings(fc, n, k);
    UpdateSettings(fc, n, k);
    LastOfConcat(ServerItems(fc, n), SecretItems(fc, n), k);
    LastOfConcat(ServerItems(fc, n) + SecretItems(fc, n), UpdateItems(fc, n), k);
    Lookup(map[], Items(fc, n), k);
  }

  lemma HeldReturns(kv: Kv, fc: FileConfig, k: Key)
    requires Holds(kv, fc, k)
    ensures Get(kv, k) == if Held(fc, k).Some? then Held(fc, k).value else ""
    ensures k.CookieSecure? ==> BoolPtr(kv, k) == fc.cookieSecure
    ensures k.UpdateCheckEnabled? ==> BoolPtr(kv, k) == fc.updateCheckEnabled
  {
    TrimNothing("true");
    TrimNothing("false");
  }

  /** The configuration read from what it holds. */
  lemma AllReturn(kv: Kv, fc: FileConfig)
    requires forall k: Key :: Holds(kv, fc, k)
    ensures FromKv(kv) == fc.(adminPassword := "")
  {
    HeldReturns(kv, fc, HttpAddr);
    HeldReturns(kv, fc, BaseUrl);
    HeldReturns(kv, fc, DbPath);
    HeldReturns(kv, fc, Mode);
    HeldReturns(kv, fc, CookieSecure);
    HeldReturns(kv, fc, AppSecret);
    HeldReturns(kv, fc, AdminUsername);
    HeldReturns(kv, fc, AdminPassword);
    HeldReturns(kv, fc, AdminPasswordHash);
    HeldReturns(kv, fc, UpdateCheckEnabled);
    HeldReturns(kv, fc, UpdateChannel);
    HeldReturns(kv, fc, GitHubRepo);
  }

  lemma ItemsReturn(fc: FileConfig, n: Notes)
    ensures FromKv(KvAfter(map[], Items(fc, n))) == fc.(adminPassword := "")
  {
    forall k: Key ensures Holds(KvAfter(map[], Items(fc, n)), fc, k) {
      ItemsHold(fc, n, k);
    }
    AllReturn(KvAfter(map[], Items(fc, n)), fc);
  }

  // ----- Line breaks never survive -----

  ghost predicate SingleLines(kv: Kv) {
    forall k :: k in kv ==> '\n' !in kv[k]
  }

  lemma TrimmedKeepsOut(s: string, c: char)
    requires c !in s
    ensures c !in Trim(s)
  {
    TrimKeepsOut(s, c);
    TrimKeepsOut(TrimLeft(s), c);
  }

  lemma ParsedSingleLine(raw: string)
    requires '\n' !in raw
    ensures ParseLine(raw).Some? ==> '\n' !in ParseLine(raw).value.1
  {
    TrimmedKeepsOut(raw, '\n');
    var line := Trim(raw);
    var colon := IndexOf(line, ':');
    if colon < |line| {
      var rest := line[colon + 1..];
      TrimmedKeepsOut(rest, '\n');
      UnquoteKeepsOut(Trim(rest), '\n');
    }
  }

  lemma {:induction false} ScanSingleLines(kv: Kv, text: string)
    requires SingleLines(kv)
    ensures ScanFrom(kv, text).Ok? ==> SingleLines(ScanFrom(kv, text).value)
    decreases |text|
  {
    if text != "" {
      var n := IndexOf(text, '\n');
      ParsedSingleLine(DropCr(text[..n]));
      ScanSingleLines(WithLine(kv, DropCr(text[..n])), if n < |text| then text[n + 1..] else "");
    }
  }

  // ----- The round trip -----

  /** Every text the printer writes. */
  function Written(fc: FileConfig): seq<string> {
    [fc.httpAddr, fc.baseUrl, fc.dbPath, fc.mode, fc.appSecret, fc.adminUsername, fc.adminPasswordHash,
     fc.updateChannel, fc.gitHubRepo]
  }

  predicate NoLineBreaks(fc: FileConfig) {
    forall v :: v in Written(fc) ==> '\n' !in v
  }

  predicate LinesFit(fc: FileConfig, n: Notes) {
    forall i :: i in Items(fc, n) ==> Fits(i)
  }

  predicate SoundNotes(n: Notes) {
    forall t :: t in [n.head1, n.head2, n.head3, n.secret, n.admin, n.update] ==> '\n' !in t
  }

  lemma TextOneLine(k: Key, v: string)
    requires '\n' !in v
    ensures OneLine(Text(k, v))
  {
    NameChars(k);
    EscapeOneKeeps(v, '\\', "\\\\", '\n');
    EscapeOneKeeps(ReplaceAll(v, "\\", "\\\\"), '\"', "\\\"", '\n');
  }

  lemma ItemOneLine(i: Item)
    requires i.Note? ==> '\n' !in i.text
    requires i.Text? ==> '\n' !in i.value
    ensures OneLine(i)
  {
    match i
    case Text(k, v) => TextOneLine(k, v);
    case Flag(k, b) => NameChars(k);
    case _ =>
  }

  lemma ItemsOneLine(fc: FileConfig, n: Notes)
    requires NoLineBreaks(fc) && SoundNotes(n)
    ensures forall i :: i in Items(fc, n) ==> OneLine(i)
  {
    forall i | i in Items(fc, n) ensures OneLine(i) {
      assert i.Text? ==> i.value in Written(fc);
      assert i.Note? ==> i.text in [n.head1, n.head2, n.head3, n.secret, n.admin, n.update];
      ItemOneLine(i);
    }
  }

  /**
   A saved configuration loads as itself, minus the plain password, exactly when none of its texts has a line break
   and every line fits the scanner.
   */
  lemma SaveLoadRoundTrip(fc: FileConfig, n: Notes)
    requires SoundNotes(n)
    ensures LoadedFrom(SavedText(fc, n)) == Ok(fc.(adminPassword := "")) <==> NoLineBreaks(fc) && LinesFit(fc, n)
  {
    var text := SavedText(fc, n);
    if NoLineBreaks(fc) {
      ItemsOneLine(fc, n);
      ScanItems(map[], Items(fc, n));
      ItemsReturn(fc, n);
    } else if LoadedFrom(text).Ok? {
      ScanSingleLines(map[], text);
      var kv := ScanFrom(map[], text).value;
      assert forall k :: '\n' !in Get(kv, k);
      assert forall v :: v in Written(FromKv(kv)) ==> '\n' !in v;
    }
  }
}
