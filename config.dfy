/** The configuration override in `main` (uservice.c): the first line of
    /etc/uservice.conf, as `fgets` reads it into a 16-byte buffer, compared
    with `strcmp` against the supported rows of the name table. */
module Config {
  import opened Wrappers
  import opened InitSystems

  /** `char fbuf[16]`, passed to `fgets` as its size: at most 15 characters
      are read, the last byte is left for the terminator. */
  const ReadBufferSize: nat := 16

  /** What `fgets` stores from `content` when allowed `budget` characters:
      the characters up to and including the first newline, at most `budget`
      of them. An empty file stores nothing (`fgets` returns NULL and the
      zeroed buffer stays an empty string). */
  function ReadLine(content: string, budget: nat): (line: string)
    ensures |line| <= budget && |line| <= |content|
    ensures line == content[..|line|]
    ensures forall k :: 0 <= k < |line| - 1 ==> line[k] != '\n'
    ensures |line| < budget && |line| < |content| ==> 0 < |line| && line[|line| - 1] == '\n'
  {
    if budget == 0 || content == [] then []
    else if content[0] == '\n' then ['\n']
    else [content[0]] + ReadLine(content[1..], budget - 1)
  }

  /** The C string held in a buffer: everything before the first NUL. */
  function CString(buf: string): (s: string)
    ensures |s| <= |buf| && s == buf[..|s|]
    ensures forall k :: 0 <= k < |s| ==> s[k] != '\0'
    ensures |s| < |buf| ==> buf[|s|] == '\0'
  {
    if buf == [] || buf[0] == '\0' then []
    else [buf[0]] + CString(buf[1..])
  }

  /** `strcmp(a, b) == 0`. */
  predicate StrcmpEqual(a: string, b: string)
    ensures a == b ==> StrcmpEqual(a, b)
    ensures (forall k :: 0 <= k < |a| ==> a[k] != '\0') && (forall k :: 0 <= k < |b| ==> b[k] != '\0') ==>
      (StrcmpEqual(a, b) <==> a == b)
  {
    CStringOfPlainIfNoNul(a);
    CStringOfPlainIfNoNul(b);
    CString(a) == CString(b)
  }

  /** The index at which the config loop breaks after examining the first `n`
      rows of the name table, or `None` when it runs to completion. */
  function FirstMatch(fbuf: string, n: nat): (r: Option<nat>)
    requires n <= |InitSystemNames|
    ensures r.Some? ==> r.value < n && StrcmpEqual(fbuf, InitSystemNames[r.value])
    ensures r.Some? ==> forall j :: 0 <= j < r.value ==> !StrcmpEqual(fbuf, InitSystemNames[j])
    ensures r.None? <==> forall j :: 0 <= j < n ==> !StrcmpEqual(fbuf, InitSystemNames[j])
  {
    if n == 0 then None
    else
      var prev := FirstMatch(fbuf, n - 1);
      if prev.Some? then prev
      else if StrcmpEqual(fbuf, InitSystemNames[n - 1]) then Some(n - 1)
      else None
  }

  /** What the configuration branch leaves in `init_system`; `None` means it
      stays `UNSUPPORTED_INIT_SYSTEM`. Only indices below
      `NUMBER_OF_SUPPORTED_INIT_SYSTEMS` are compared. */
  function MatchConfig(content: string): (r: Option<InitSystem>)
    ensures r.Some? ==> IsSupported(r.value)
  {
    match FirstMatch(ReadLine(content, ReadBufferSize - 1), SupportedCount)
    case None => None
    case Some(i) => Some(FromOrdinal(i))
  }

  /** A buffer without NUL is its own C string. */
  lemma CStringOfPlain(s: string)
    requires forall k :: 0 <= k < |s| ==> s[k] != '\0'
    ensures CString(s) == s
  {
  }

  /** Conditional form of `CStringOfPlain`, usable in any context. */
  lemma CStringOfPlainIfNoNul(s: string)
    ensures (forall k :: 0 <= k < |s| ==> s[k] != '\0') ==> CString(s) == s
  {
    if forall k :: 0 <= k < |s| ==> s[k] != '\0' {
      CStringOfPlain(s);
    }
  }

  /** `strcmp` against a name-table row succeeds on a line read by `fgets`
      exactly when the line IS that row: the row ends in the only newline
      `fgets` keeps, so an embedded NUL can never make a longer or shorter
      line compare equal. */
  lemma StrcmpLineIffEqual(line: string, budget: nat, content: string, s: InitSystem)
    requires line == ReadLine(content, budget)
    ensures StrcmpEqual(line, Name(s)) <==> line == Name(s)
  {
    var name := Name(s);
    CStringOfPlain(name);
    if StrcmpEqual(line, name) {
      var c := CString(line);
      assert c == name;
      assert line[|name| - 1] == '\n';
    }
  }

  /** A line that is a name-table row is read whole by `fgets(fbuf, 16, …)`,
      whatever follows it in the file. */
  lemma {:induction false} ReadLineKeepsFirstLine(line: string, rest: string, budget: nat)
    requires 0 < |line| <= budget && line[|line| - 1] == '\n'
    requires forall k :: 0 <= k < |line| - 1 ==> line[k] != '\n'
    ensures ReadLine(line + rest, budget) == line
  {
    if |line| > 1 {
      assert (line + rest)[1..] == line[1..] + rest;
      ReadLineKeepsFirstLine(line[1..], rest, budget - 1);
    }
  }

  /** The override selects systemd exactly when the line read is
      "systemd\n", OpenRC exactly when it is "openRC\n", and nothing
      otherwise. */
  lemma MatchConfigExact(content: string)
    ensures MatchConfig(content) == Some(Systemd) <==> ReadLine(content, ReadBufferSize - 1) == "systemd\n"
    ensures MatchConfig(content) == Some(OpenRC) <==> ReadLine(content, ReadBufferSize - 1) == "openRC\n"
    ensures MatchConfig(content) == None <==>
      ReadLine(content, ReadBufferSize - 1) != "systemd\n" && ReadLine(content, ReadBufferSize - 1) != "openRC\n"
  {
    var line := ReadLine(content, ReadBufferSize - 1);
    StrcmpLineIffEqual(line, ReadBufferSize - 1, content, Systemd);
    StrcmpLineIffEqual(line, ReadBufferSize - 1, content, OpenRC);
    NameIsTableRow(Systemd);
    NameIsTableRow(OpenRC);
    NamesOfSupportedSystems(Systemd, OpenRC);
    NamesOfSupportedSystems(OpenRC, Systemd);
  }

  /** A file whose first line is a supported system's name selects that
      system, whatever follows. */
  lemma FirstLineSelects(s: InitSystem, rest: string)
    requires IsSupported(s)
    ensures MatchConfig(Name(s) + rest) == Some(s)
  {
    ReadLineKeepsFirstLine(Name(s), rest, ReadBufferSize - 1);
    MatchConfigExact(Name(s) + rest);
    NamesOfSupportedSystems(s, s);
  }

  /** The sentinel rows are never compared: even a file reading "INVALID\n"
      selects nothing. */
  lemma InvalidRowNeverSelected(rest: string)
    ensures MatchConfig("INVALID\n" + rest) == None
  {
    ReadLineKeepsFirstLine("INVALID\n", rest, ReadBufferSize - 1);
    MatchConfigExact("INVALID\n" + rest);
  }
}
