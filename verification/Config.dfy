/** The shell-quoted configuration file of the Paperwing skill: its writer and its reader. */
module Config {
  import opened Results

  // ----- shlex.quote -----

  /** The characters outside [^\w@%+=:,./-] in ASCII. */
  predicate Safe(c: char) {
    'a' <= c <= 'z' || 'A' <= c <= 'Z' || '0' <= c <= '9' || c in "_@%+=:,./-"
  }

  predicate AllSafe(s: string) { forall i :: 0 <= i < |s| ==> Safe(s[i]) }

  /** Each single quote becomes '"'"'. */
  function EscapedChar(c: char): string {
    if c == '\'' then "'\"'\"'" else [c]
  }

  function Escaped(s: string): string {
    if s == "" then "" else EscapedChar(s[0]) + Escaped(s[1..])
  }

  function Quote(s: string): string {
    if s == "" then "''" else if AllSafe(s) then s else "'" + Escaped(s) + "'"
  }

  // ----- shlex.split in POSIX mode -----

  /** Between words; in a word; inside single or double quotes; after a backslash. */
  datatype Mode = Blank | Word | Single | Double | AfterBackslash(inDouble: bool)

  predicate ShellSpace(c: char) { c == ' ' || c == '\t' || c == '\r' || c == '\n' }

  function Emit(words: seq<string>, token: string, quoted: bool): seq<string> {
    if token == "" && !quoted then words else words + [token]
  }

  /** The lexer by sections 2.2.2 and 2.2.3 of the POSIX Shell Command Language; None for an unclosed quote or escape. */
  function Lex(s: string, mode: Mode, token: string, quoted: bool, words: seq<string>): Option<seq<string>> {
    if s == "" then
      match mode
      case Blank => Some(words)
      case Word => Some(Emit(words, token, quoted))
      case _ => None
    else
      var c, rest := s[0], s[1..];
      match mode
      case Blank =>
        if ShellSpace(c) then Lex(rest, Blank, "", false, words)
        else if c == '\\' then Lex(rest, AfterBackslash(false), "", false, words)
        else if c == '\'' then Lex(rest, Single, "", true, words)
        else if c == '\"' then Lex(rest, Double, "", true, words)
        else Lex(rest, Word, [c], false, words)
      case Word =>
        if ShellSpace(c) then Lex(rest, Blank, "", false, Emit(words, token, quoted))
        else if c == '\\' then Lex(rest, AfterBackslash(false), token, quoted, words)
        else if c == '\'' then Lex(rest, Single, token, true, words)
        else if c == '\"' then Lex(rest, Double, token, true, words)
        else Lex(rest, Word, token + [c], quoted, words)
      case Single =>
        if c == '\'' then Lex(rest, Word, token, quoted, words)
        else Lex(rest, Single, token + [c], quoted, words)
      case Double =>
        if c == '\"' then Lex(rest, Word, token, quoted, words)
        else if c == '\\' then Lex(rest, AfterBackslash(true), token, quoted, words)
        else Lex(rest, Double, token + [c], quoted, words)
      case AfterBackslash(inDouble) =>
        var kept := if inDouble && c != '\\' && c != '\"' then token + ['\\'] else token;
        Lex(rest, if inDouble then Double else Word, kept + [c], quoted, words)
  }

  function Split(s: string): Option<seq<string>> {
    Lex(s, Blank, "", false, [])
  }

  // ----- lines -----

  /** The line boundaries of str.splitlines. */
  predicate LineBreak(c: char) {
    c in ['\n', '\r', '\U{0B}', '\U{0C}', '\U{1C}', '\U{1D}', '\U{1E}', '\U{85}', '\U{2028}', '\U{2029}']
  }

  predicate NoBreaks(s: string) { forall i :: 0 <= i < |s| ==> !LineBreak(s[i]) }

  /** The length of the first line. */
  function FirstLine(s: string): (k: nat)
    ensures k <= |s| && NoBreaks(s[..k]) && (k < |s| ==> LineBreak(s[k]))
  {
    if s == "" || LineBreak(s[0]) then 0
    else
      var k := FirstLine(s[1..]);
      assert s[..k + 1] == [s[0]] + s[1..][..k];
      k + 1
  }

  /** splitlines, with carriage return and line feed together as one boundary. */
  function Lines(s: string): seq<string>
    decreases |s|
  {
    if s == "" then []
    else
      var k := FirstLine(s);
      if k == |s| then [s]
      else if s[k] == '\r' && k + 1 < |s| && s[k + 1] == '\n' then [s[..k]] + Lines(s[k + 2..])
      else [s[..k]] + Lines(s[k + 1..])
  }

  /** The characters that str.strip removes. */
  predicate Space(c: char) {
    LineBreak(c) || c in [' ', '\t', '\U{1F}', '\U{A0}', '\U{1680}', '\U{202F}', '\U{205F}', '\U{3000}'] ||
    '\U{2000}' <= c <= '\U{200A}'
  }

  function StripLeft(s: string): string {
    if s != "" && Space(s[0]) then StripLeft(s[1..]) else s
  }

  function StripRight(s: string): string {
    if s != "" && Space(s[|s| - 1]) then StripRight(s[..|s| - 1]) else s
  }

  function Strip(s: string): string { StripRight(StripLeft(s)) }

  // ----- read_config and write_config -----

  const URL: string := "PAPERWING_URL"
  const TOKEN: string := "PAPERWING_API_TOKEN"

  function FirstEquals(s: string): (k: nat)
    ensures k <= |s| && (k < |s| ==> s[k] == '=') && forall i :: 0 <= i < k ==> s[i] != '='
  {
    if s == "" || s[0] == '=' then 0 else 1 + FirstEquals(s[1..])
  }

  /** One line: skipped, stored, or an error of the splitter. */
  function ReadLine(values: map<string, string>, raw: string): Option<map<string, string>> {
    var line := Strip(raw);
    var k := FirstEquals(line);
    if line == "" || line[0] == '#' || k == |line| then Some(values)
    else if line[..k] != URL && line[..k] != TOKEN then Some(values)
    else
      var parsed :- Split(line[k + 1..]);
      if |parsed| == 1 then Some(values[line[..k] := parsed[0]]) else Some(values)
  }

  function ReadLines(values: map<string, string>, lines: seq<string>): Option<map<string, string>>
    decreases |lines|
  {
    if lines == [] then Some(values)
    else
      var next :- ReadLine(values, lines[0]);
      ReadLines(next, lines[1..])
  }

  function ConfigText(url: string, token: string): string {
    URL + "=" + Quote(url) + "\n" + (TOKEN + "=" + Quote(token) + "\n")
  }

  datatype WriteFaults = WriteFaults(create: bool, chmod: bool, write: bool, replace: bool, finalChmod: bool)

  class ConfigFile {
    var file: Option<string>
    var temporary: Option<string>

    constructor (file: Option<string>)
      ensures this.file == file && temporary == None
    {
      this.file, temporary := file, None;
    }

    method ReadConfig() returns (values: Option<map<string, string>>)
      ensures values == if file.None? then Some(map[]) else ReadLines(map[], Lines(file.value))
    {
      if file.None? { return Some(map[]); }
      var lines := Lines(file.value);
      var found := map[];
      var i := 0;
      while i < |lines|
        invariant 0 <= i <= |lines|
        invariant ReadLines(found, lines[i..]) == ReadLines(map[], lines)
      {
        var next := ReadLine(found, lines[i]);
        assert lines[i..][1..] == lines[i + 1..];
        if next.None? { return None; }
        found := next.value;
        i := i + 1;
      }
      return Some(found);
    }

    method Fill(url: string, token: string, faults: WriteFaults) returns (ok: bool)
      requires temporary == Some("")
      modifies this
      ensures ok == !(faults.chmod || faults.write || faults.replace || faults.finalChmod)
      ensures file == if faults.chmod || faults.write || faults.replace then old(file) else Some(ConfigText(url, token))
      ensures ok ==> temporary == None
    {
      if faults.chmod { return false; }
      temporary := Some(URL + "=" + Quote(url) + "\n");
      if faults.write { return false; }
      temporary := Some(temporary.value + (TOKEN + "=" + Quote(token) + "\n"));
      if faults.replace { return false; }
      file, temporary := temporary, None;
      return !faults.finalChmod;
    }

    /** Writes beside the file and replaces it; on any error the old file or the complete new one is there. */
    method WriteConfig(url: string, token: string, faults: WriteFaults) returns (ok: bool)
      requires temporary == None
      modifies this
      ensures ok == !(faults.create || faults.chmod || faults.write || faults.replace || faults.finalChmod)
      ensures ok ==> file == Some(ConfigText(url, token))
      ensures file == if faults.create || faults.chmod || faults.write || faults.replace then old(file)
                      else Some(ConfigText(url, token))
      ensures temporary == None
    {
      if faults.create { return false; }
      temporary := Some("");
      ok := Fill(url, token, faults);
      if !ok { temporary := None; }
    }
  }
}
