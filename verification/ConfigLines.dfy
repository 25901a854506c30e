/** What the writer's text looks like, and what each line of the file means to the reader. */
module ConfigLines {
  import opened Results
  import opened Config
  import opened ConfigRoundTrip

  // ----- the text -----

  lemma {:induction false} NothingEscaped(s: string)
    requires '\'' !in s
    ensures Escaped(s) == s
  {
    if s != "" { NothingEscaped(s[1..]); }
  }

  /** A safe value stands as it is, any other one without a single quote stands between two of them. */
  lemma QuotedText(s: string)
    ensures s != "" && AllSafe(s) ==> Quote(s) == s
    ensures !(s != "" && AllSafe(s)) && '\'' !in s ==> Quote(s) == "'" + s + "'"
  {
    if '\'' !in s { NothingEscaped(s); }
  }

  /** The file of a safe URL and a safe token. */
  lemma WrittenText(url: string, token: string)
    requires url != "" && AllSafe(url) && token != "" && AllSafe(token)
    ensures ConfigText(url, token) == "PAPERWING_URL=" + url + "\n" + ("PAPERWING_API_TOKEN=" + token + "\n")
  {
    assert URL + "=" == "PAPERWING_URL=";
    assert TOKEN + "=" == "PAPERWING_API_TOKEN=";
  }

  // ----- stripping -----

  lemma {:induction false} StripLeftIs(s: string) returns (a: nat)
    ensures a <= |s| && StripLeft(s) == s[a..] && forall i :: 0 <= i < a ==> Space(s[i])
    ensures a < |s| ==> !Space(s[a])
  {
    if s != "" && Space(s[0]) {
      var k := StripLeftIs(s[1..]);
      a := k + 1;
      assert s[1..][k..] == s[a..];
      forall i | 0 <= i < a ensures Space(s[i]) { assert i > 0 ==> s[1..][i - 1] == s[i]; }
    } else {
      a := 0;
    }
  }

  lemma {:induction false} StripRightIs(s: string) returns (b: nat)
    ensures b <= |s| && StripRight(s) == s[..b] && forall i :: b <= i < |s| ==> Space(s[i])
    ensures b > 0 ==> !Space(s[b - 1])
  {
    if s != "" && Space(s[|s| - 1]) {
      var t := s[..|s| - 1];
      b := StripRightIs(t);
      assert t[..b] == s[..b];
      forall i | b <= i < |s| ensures Space(s[i]) { assert i < |t| ==> t[i] == s[i]; }
    } else {
      b := |s|;
      assert s[..b] == s;
    }
  }

  /** Stripping removes spaces at both ends, all of them, and nothing else. */
  lemma StripIs(s: string) returns (a: nat, b: nat)
    ensures a <= b <= |s| && Strip(s) == s[a..b]
    ensures forall i :: 0 <= i < a || b <= i < |s| ==> Space(s[i])
    ensures a < b ==> !Space(s[a]) && !Space(s[b - 1])
  {
    a := StripLeftIs(s);
    var t := s[a..];
    var k := StripRightIs(t);
    b := a + k;
    assert t[..k] == s[a..b];
    forall i | b <= i < |s| ensures Space(s[i]) { assert t[i - a] == s[i]; }
    if a < b { assert t[k - 1] == s[b - 1]; }
  }

  // ----- words -----

  lemma BlankEnds(token: string, tail: string, words: seq<string>)
    requires token != ""
    ensures Lex(" " + tail, Word, token, false, words) == Lex(tail, Blank, "", false, words + [token])
  {
    assert (" " + tail)[1..] == tail;
  }

  lemma SafeChar(c: char, tail: string, token: string, words: seq<string>)
    requires Safe(c)
    ensures Lex([c] + tail, Word, token, false, words) == Lex(tail, Word, token + [c], false, words)
  {
    assert ([c] + tail)[1..] == tail;
  }

  lemma {:induction false} SafeThenBlank(s: string, text: string, token: string, tail: string, words: seq<string>)
    requires AllSafe(s) && token != "" && text == s + (" " + tail)
    ensures Lex(text, Word, token, false, words) == Lex(tail, Blank, "", false, words + [token + s])
    decreases |s|
  {
    if s == "" {
      assert text == " " + tail && token + s == token;
      BlankEnds(token, tail, words);
    } else {
      var rest := s[1..] + (" " + tail);
      assert Safe(s[0]) && text == [s[0]] + rest;
      SafeChar(s[0], rest, token, words);
      SafeThenBlank(s[1..], rest, token + [s[0]], tail, words);
      assert token + [s[0]] + s[1..] == token + s;
    }
  }

  lemma ClosesThenBlank(s: string, tail: string, words: seq<string>)
    ensures Lex("' " + tail, Single, s, true, words) == Lex(tail, Blank, "", false, words + [s])
  {
    var t := "' " + tail;
    assert t[1..] == " " + tail && t[1..][1..] == tail;
    assert Lex(t, Single, s, true, words) == Lex(t[1..], Word, s, true, words);
    assert Emit(words, s, true) == words + [s];
  }

  lemma EscapedThenBlank(s: string, tail: string, words: seq<string>)
    ensures Lex("'" + Escaped(s) + "'" + (" " + tail), Blank, "", false, words) == Lex(tail, Blank, "", false, words + [s])
  {
    var t := "'" + Escaped(s) + "'" + (" " + tail);
    assert t[1..] == Escaped(s) + ("' " + tail);
    LexesEscaped(s, "' " + tail, "", words);
    assert "" + s == s;
    ClosesThenBlank(s, tail, words);
  }

  lemma QuoteOf(s: string)
    requires s == "" || !AllSafe(s)
    ensures Quote(s) == "'" + Escaped(s) + "'"
  {
    if s == "" { assert Escaped(s) == ""; }
  }

  lemma SafeStart(c: char, tail: string, words: seq<string>)
    requires Safe(c)
    ensures Lex([c] + tail, Blank, "", false, words) == Lex(tail, Word, [c], false, words)
  {
    assert ([c] + tail)[1..] == tail;
  }

  lemma SafeWordThenBlank(s: string, text: string, tail: string, words: seq<string>)
    requires s != "" && AllSafe(s) && text == s + (" " + tail)
    ensures Lex(text, Blank, "", false, words) == Lex(tail, Blank, "", false, words + [s])
  {
    var rest := s[1..] + (" " + tail);
    assert Safe(s[0]) && text == [s[0]] + rest;
    SafeStart(s[0], rest, words);
    SafeThenBlank(s[1..], rest, [s[0]], tail, words);
    assert [s[0]] + s[1..] == s;
  }

  lemma WordThenBlank(s: string, tail: string, words: seq<string>)
    ensures Lex(Quote(s) + (" " + tail), Blank, "", false, words) == Lex(tail, Blank, "", false, words + [s])
  {
    if s != "" && AllSafe(s) {
      SafeWordThenBlank(s, s + (" " + tail), tail, words);
    } else {
      assert Quote(s) == "'" + Escaped(s) + "'" by { QuoteOf(s); }
      EscapedThenBlank(s, tail, words);
    }
  }

  /** Quoted words, each with a blank after it. */
  function Spaced(words: seq<string>): string {
    if words == [] then "" else Quote(words[0]) + (" " + Spaced(words[1..]))
  }

  lemma NothingLeft(words: seq<string>)
    ensures Lex("", Blank, "", false, words) == Some(words)
  {
  }

  lemma FirstWord(words: seq<string>, text: string, before: seq<string>)
    requires words != [] && text == Spaced(words)
    ensures Lex(text, Blank, "", false, before) == Lex(Spaced(words[1..]), Blank, "", false, before + [words[0]])
  {
    WordThenBlank(words[0], Spaced(words[1..]), before);
  }

  lemma MoveFirst(before: seq<string>, words: seq<string>)
    requires words != []
    ensures before + [words[0]] + words[1..] == before + words
  {
  }

  lemma {:induction false} LexesSpaced(words: seq<string>, text: string, before: seq<string>)
    requires text == Spaced(words)
    ensures Lex(text, Blank, "", false, before) == Some(before + words)
    decreases |words|
  {
    if words == [] {
      NothingLeft(before);
      assert before + words == before;
    } else {
      FirstWord(words, text, before);
      MoveFirst(before, words);
      LexesSpaced(words[1..], Spaced(words[1..]), before + [words[0]]);
    }
  }

  /** Splitting separates words at blanks and at no other place, for every list of strings. */
  lemma SplitInvertsSpaced(words: seq<string>)
    ensures Split(Spaced(words)) == Some(words)
  {
    LexesSpaced(words, Spaced(words), []);
    assert [] + words == words;
  }

  // ----- lines -----

  /** An empty line, a comment and a line without an equals sign change nothing. */
  lemma LineSkipped(values: map<string, string>, raw: string)
    requires Strip(raw) == "" || Strip(raw)[0] == '#' || '=' !in Strip(raw)
    ensures ReadLine(values, raw) == Some(values)
  {
  }

  /**
    A line sets the value that its text before the first equals sign names, if the text after it is exactly
    one word; an unclosed quote is an error, and every other name is ignored.
   */
  lemma LineMeans(values: map<string, string>, raw: string, name: string, text: string)
    requires Strip(raw) == name + "=" + text && '=' !in name
    ensures name != "PAPERWING_URL" && name != "PAPERWING_API_TOKEN" ==> ReadLine(values, raw) == Some(values)
    ensures name == "PAPERWING_URL" || name == "PAPERWING_API_TOKEN" ==>
      match Split(text)
      case None => ReadLine(values, raw) == None
      case Some(words) => ReadLine(values, raw) == Some(if |words| == 1 then values[name := words[0]] else values)
  {
    var line := name + "=" + text;
    assert line[|name|] == '=';
    forall i | 0 <= i < |name| ensures line[i] != '=' { assert line[i] == name[i] && name[i] in name; }
    FirstEqualsIs(line, |name|);
    assert line[..|name|] == name && line[|name| + 1..] == text;
    if IsName(name) { NameFacts(name); }
  }

  // ----- the whole file -----

  /** A line ends at its first separator, or at the end of the text, where an empty rest is no line. */
  lemma LinesAre(line: string, c: char, rest: string)
    requires NoBreaks(line)
    ensures Lines(line) == if line == "" then [] else [line]
    ensures LineBreak(c) && !(c == '\r' && rest != "" && rest[0] == '\n') ==> Lines(line + [c] + rest) == [line] + Lines(rest)
    ensures Lines(line + "\r\n" + rest) == [line] + Lines(rest)
  {
    assert line[..|line|] == line;
    FirstLineIs(line, |line|);
    CarriageReturnLineFeed(line, rest);
    var s := line + [c] + rest;
    if LineBreak(c) {
      assert s[..|line|] == line && s[|line|] == c && s[|line| + 1..] == rest;
      FirstLineIs(s, |line|);
    }
  }

  /** Lines are read in their order, each over what the ones before it gave, until one is an error. */
  lemma {:induction false} LinesInOrder(values: map<string, string>, first: seq<string>, rest: seq<string>)
    ensures ReadLines(values, first + rest) ==
      if ReadLines(values, first).None? then None else ReadLines(ReadLines(values, first).value, rest)
    decreases |first|
  {
    if first == [] {
      assert first + rest == rest;
    } else {
      assert (first + rest)[1..] == first[1..] + rest;
      var next := ReadLine(values, first[0]);
      if next.Some? { LinesInOrder(next.value, first[1..], rest); }
    }
  }

  /** The last line that gives a value decides. */
  lemma LastLineWins(values: map<string, string>, lines: seq<string>, line: string)
    ensures ReadLines(values, lines + [line]) ==
      if ReadLines(values, lines).None? then None else ReadLine(ReadLines(values, lines).value, line)
  {
    LinesInOrder(values, lines, [line]);
    if ReadLines(values, lines).Some? {
      ReadLinesFirst(ReadLines(values, lines).value, line, []);
      assert [line] + [] == [line];
    }
  }
}
