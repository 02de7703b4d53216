/** The configuration file: written by one hand-made printer, read back by one hand-made line parser. */
module ConfigFile {
  import opened Options
  import opened YamlQuoting

  datatype FileConfig = FileConfig(
    httpAddr: string,
    baseUrl: string,
    dbPath: string,
    mode: string,
    cookieSecure: Option<bool>,
    appSecret: string,
    adminUsername: string,
    adminPassword: string,
    adminPasswordHash: string,
    updateCheckEnabled: Option<bool>,
    updateChannel: string,
    gitHubRepo: string)

  datatype Key =
    | HttpAddr | BaseUrl | DbPath | Mode | CookieSecure | AppSecret | AdminUsername | AdminPassword
    | AdminPasswordHash | UpdateCheckEnabled | UpdateChannel | GitHubRepo

  function Name(k: Key): string {
    match k
    case HttpAddr => "http_addr"
    case BaseUrl => "base_url"
    case DbPath => "db_path"
    case Mode => "mode"
    case CookieSecure => "cookie_secure"
    case AppSecret => "app_secret"
    case AdminUsername => "admin_username"
    case AdminPassword => "admin_password"
    case AdminPasswordHash => "admin_password_hash"
    case UpdateCheckEnabled => "update_check_enabled"
    case UpdateChannel => "update_channel"
    case GitHubRepo => "github_repo"
  }

  lemma NamesDiffer(j: Key, k: Key)
    ensures Name(j) == Name(k) ==> j == k
  {
    if |Name(j)| == |Name(k)| == 14 {
      assert Name(UpdateChannel)[0] == 'u' && Name(AdminUsername)[0] == 'a' && Name(AdminPassword)[0] == 'a';
      assert Name(AdminUsername)[6] == 'u' && Name(AdminPassword)[6] == 'p';
    }
  }

  /** Lower-case letters and underscores. */
  predicate IsNameChar(c: char) {
    'a' <= c <= 'z' || c == '_'
  }

  lemma NameChars(k: Key)
    ensures Name(k) != [] && forall c :: c in Name(k) ==> IsNameChar(c)
  {
  }

  // ----- Printing -----

  /** What the printer puts into the file, piece by piece. */
  datatype Item = Note(text: string) | Blank | Text(key: Key, value: string) | Flag(key: Key, flag: Option<bool>)

  function FlagText(b: bool): string {
    if b then "true" else "false"
  }

  /** The line of an item; unset values have none. */
  function LineOf(i: Item): Option<string> {
    match i
    case Note(text) => Some("#" + text)
    case Blank => Some("")
    case Text(key, value) => if value == "" then None else Some(Name(key) + ": " + QuoteYaml(value))
    case Flag(key, flag) => if flag.None? then None else Some(Name(key) + ": " + FlagText(flag.value))
  }

  function Printed(i: Item): string {
    var l := LineOf(i);
    if l.None? then "" else l.value + "\n"
  }

  function Concat<T>(f: T -> string, s: seq<T>): string {
    if s == [] then "" else f(s[0]) + Concat(f, s[1..])
  }

  lemma {:induction false} ConcatOneMore<T>(f: T -> string, s: seq<T>, x: T)
    ensures Concat(f, s + [x]) == Concat(f, s) + f(x)
  {
    if s == [] {
      assert s + [x] == [x] && [x][1..] == [];
    } else {
      ConcatOneMore(f, s[1..], x);
      assert (s + [x])[1..] == s[1..] + [x];
    }
  }

  function PrintedAll(items: seq<Item>): string {
    Concat(Printed, items)
  }

  /** The text built so far and, for the proof, the items it consists of. */
  class Builder {
    var text: string
    ghost var items: seq<Item>

    ghost predicate Valid()
      reads this
    {
      text == PrintedAll(items)
    }

    constructor ()
      ensures Valid() && items == []
    {
      text, items := "", [];
    }

    method WriteNote(note: string)
      requires Valid()
      modifies this
      ensures Valid() && items == old(items) + [Note(note)]
    {
      ConcatOneMore(Printed, items, Note(note));
      text, items := text + "#" + note + "\n", items + [Note(note)];
    }

    method WriteBlank()
      requires Valid()
      modifies this
      ensures Valid() && items == old(items) + [Blank]
    {
      ConcatOneMore(Printed, items, Blank);
      text, items := text + "\n", items + [Blank];
    }

    method WriteStr(key: Key, val: string)
      requires Valid()
      modifies this
      ensures Valid() && items == old(items) + [Text(key, val)]
    {
      ConcatOneMore(Printed, items, Text(key, val));
      items := items + [Text(key, val)];
      if val == "" {
        return;
      }
      text := text + (Name(key) + ": " + QuoteYaml(val) + "\n");
    }

    method WriteBool(key: Key, val: Option<bool>)
      requires Valid()
      modifies this
      ensures Valid() && items == old(items) + [Flag(key, val)]
    {
      ConcatOneMore(Printed, items, Flag(key, val));
      items := items + [Flag(key, val)];
      if val == None {
        return;
      }
      text := text + (Name(key) + ": " + FlagText(val.value) + "\n");
    }
  }

  /** The fixed remarks of the file: three lines on top, one above each later section. */
  datatype Notes = Notes(head1: string, head2: string, head3: string, secret: string, admin: string, update: string)

  function ServerItems(fc: FileConfig, n: Notes): seq<Item> {
    [Note(n.head1), Note(n.head2), Note(n.head3), Blank,
     Text(HttpAddr, fc.httpAddr), Text(BaseUrl, fc.baseUrl), Text(DbPath, fc.dbPath), Text(Mode, fc.mode),
     Flag(CookieSecure, fc.cookieSecure)]
  }

  function SecretItems(fc: FileConfig, n: Notes): seq<Item> {
    [Blank, Note(n.secret), Text(AppSecret, fc.appSecret),
     Blank, Note(n.admin), Text(AdminUsername, fc.adminUsername), Text(AdminPasswordHash, fc.adminPasswordHash)]
  }

  function UpdateItems(fc: FileConfig, n: Notes): seq<Item> {
    [Blank, Note(n.update), Flag(UpdateCheckEnabled, fc.updateCheckEnabled), Text(UpdateChannel, fc.updateChannel),
     Text(GitHubRepo, fc.gitHubRepo)]
  }

  function Items(fc: FileConfig, n: Notes): seq<Item> {
    ServerItems(fc, n) + SecretItems(fc, n) + UpdateItems(fc, n)
  }

  function SavedText(fc: FileConfig, n: Notes): string {
    PrintedAll(Items(fc, n))
  }

  method SaveFile(fc: FileConfig, n: Notes) returns (text: string)
    ensures text == SavedText(fc, n)
  {
    var b := new Builder();
    WriteServer(b, fc, n);
    WriteSecrets(b, fc, n);
    WriteUpdate(b, fc, n);
    assert b.items == Items(fc, n);
    return b.text;
  }

  method WriteServer(b: Builder, fc: FileConfig, n: Notes)
    requires b.Valid()
    modifies b
    ensures b.Valid() && b.items == old(b.items) + ServerItems(fc, n)
  {
    b.WriteNote(n.head1);
    b.WriteNote(n.head2);
    b.WriteNote(n.head3);
    b.WriteBlank();
    b.WriteStr(HttpAddr, fc.httpAddr);
    b.WriteStr(BaseUrl, fc.baseUrl);
    b.WriteStr(DbPath, fc.dbPath);
    b.WriteStr(Mode, fc.mode);
    b.WriteBool(CookieSecure, fc.cookieSecure);
  }

  method WriteSecrets(b: Builder, fc: FileConfig, n: Notes)
    requires b.Valid()
    modifies b
    ensures b.Valid() && b.items == old(b.items) + SecretItems(fc, n)
  {
    b.WriteBlank();
    b.WriteNote(n.secret);
    b.WriteStr(AppSecret, fc.appSecret);
    b.WriteBlank();
    b.WriteNote(n.admin);
    b.WriteStr(AdminUsername, fc.adminUsername);
    b.WriteStr(AdminPasswordHash, fc.adminPasswordHash);
  }

  method WriteUpdate(b: Builder, fc: FileConfig, n: Notes)
    requires b.Valid()
    modifies b
    ensures b.Valid() && b.items == old(b.items) + UpdateItems(fc, n)
  {
    b.WriteBlank();
    b.WriteNote(n.update);
    b.WriteBool(UpdateCheckEnabled, fc.updateCheckEnabled);
    b.WriteStr(UpdateChannel, fc.updateChannel);
    b.WriteStr(GitHubRepo, fc.gitHubRepo);
  }

  // ----- Parsing -----

  datatype Loaded<+T> = Ok(value: T) | LineTooLong

  type Kv = map<string, string>

  /** The scanner gives up on a line that does not fit its buffer of 64 KiB. */
  const MAX_LINE: nat := 65535

  function DropCr(line: string): string {
    if line != [] && line[|line| - 1] == '\r' then line[..|line| - 1] else line
  }

  function ParseLine(raw: string): Option<(string, string)> {
    var line := Trim(raw);
    if line == "" || line[0] == '#' then None
    else
      var colon := IndexOf(line, ':');
      if colon == |line| then None
      else Some((Trim(line[..colon]), UnquoteYaml(Trim(line[colon + 1..]))))
  }

  function WithLine(kv: Kv, raw: string): Kv {
    var p := ParseLine(raw);
    if p.None? then kv else kv[p.value.0 := p.value.1]
  }

  /** The scan from a position on, with what was read before. */
  function ScanFrom(kv: Kv, text: string): Loaded<Kv>
    decreases |text|
  {
    if text == "" then Ok(kv)
    else
      var n := IndexOf(text, '\n');
      if Utf8Length(text[..n]) > MAX_LINE then LineTooLong
      else ScanFrom(WithLine(kv, DropCr(text[..n])), if n < |text| then text[n + 1..] else "")
  }

  function Get(kv: Kv, k: Key): string {
    if Name(k) in kv then kv[Name(k)] else ""
  }

  function ParseBool(s: string): Option<bool> {
    if s == "1" || s == "t" || s == "T" || s == "TRUE" || s == "true" || s == "True" then Some(true)
    else if s == "0" || s == "f" || s == "F" || s == "FALSE" || s == "false" || s == "False" then Some(false)
    else None
  }

  /** A missing, empty or unreadable flag is unset. */
  function BoolPtr(kv: Kv, k: Key): Option<bool> {
    if Trim(Get(kv, k)) == "" then None else ParseBool(Trim(Get(kv, k)))
  }

  function FromKv(kv: Kv): FileConfig {
    FileConfig(
      Get(kv, HttpAddr), Get(kv, BaseUrl), Get(kv, DbPath), Get(kv, Mode), BoolPtr(kv, CookieSecure),
      Get(kv, AppSecret), Get(kv, AdminUsername), Get(kv, AdminPassword), Get(kv, AdminPasswordHash),
      BoolPtr(kv, UpdateCheckEnabled), Get(kv, UpdateChannel), Get(kv, GitHubRepo))
  }

  function LoadedFrom(text: string): Loaded<FileConfig> {
    var kv := ScanFrom(map[], text);
    if kv.LineTooLong? then LineTooLong else Ok(FromKv(kv.value))
  }

  method LoadFile(text: string) returns (r: Loaded<FileConfig>)
    ensures r == LoadedFrom(text)
  {
    var kv: Kv := map[];
    var pos := 0;
    while pos < |text|
      invariant 0 <= pos <= |text|
      invariant ScanFrom(kv, text[pos..]) == ScanFrom(map[], text)
    {
      var n := IndexOf(text[pos..], '\n');
      var raw := text[pos..][..n];
      if Utf8Length(raw) > MAX_LINE {
        return LineTooLong;
      }
      var line := Trim(DropCr(raw));
      if line != "" && line[0] != '#' {
        var colon := IndexOf(line, ':');
        if colon < |line| {
          kv := kv[Trim(line[..colon]) := UnquoteYaml(Trim(line[colon + 1..]))];
        }
      }
      assert n < |text[pos..]| ==> text[pos..][n + 1..] == text[pos + n + 1..];
      pos := if n < |text| - pos then pos + n + 1 else |text|;
    }
    return Ok(FromKv(kv));
  }
}
