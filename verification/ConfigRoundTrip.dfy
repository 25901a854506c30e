/** Reading back what the configuration writer wrote. */
module ConfigRoundTrip {
  import opened Results
  import opened Config

  // ----- the lexer undoes the quoting -----

  lemma {:induction false} LexesSafeWord(s: string, token: string, words: seq<string>)
    requires AllSafe(s) && token != ""
    ensures Lex(s, Word, token, false, words) == Some(words + [token + s])
  {
    if s == "" {
      assert token + s == token;
    } else {
      assert Safe(s[0]);
      LexesSafeWord(s[1..], token + [s[0]], words);
      assert token + [s[0]] + s[1..] == token + s;
    }
  }

  lemma LexesEscapedQuote(tail: string, token: string, words: seq<string>)
    ensures Lex("'\"'\"'" + tail, Single, token, true, words) == Lex(tail, Single, token + ['\''], true, words)
  {
    var s := "'\"'\"'" + tail;
    assert s[1..][1..] == s[2..] && s[2..][1..] == s[3..] && s[3..][1..] == s[4..] && s[4..][1..] == tail;
    assert Lex(s, Single, token, true, words) == Lex(s[1..], Word, token, true, words);
    assert Lex(s[1..], Word, token, true, words) == Lex(s[2..], Double, token, true, words);
    assert Lex(s[2..], Double, token, true, words) == Lex(s[3..], Double, token + ['\''], true, words);
    assert Lex(s[3..], Double, token + ['\''], true, words) == Lex(s[4..], Word, token + ['\''], true, words);
    assert Lex(s[4..], Word, token + ['\''], true, words) == Lex(tail, Single, token + ['\''], true, words);
  }

  lemma LexesEscapedChar(c: char, tail: string, token: string, words: seq<string>)
    ensures Lex(EscapedChar(c) + tail, Single, token, true, words) == Lex(tail, Single, token + [c], true, words)
  {
    if c == '\'' {
      LexesEscapedQuote(tail, token, words);
    } else {
      assert ([c] + tail)[1..] == tail;
    }
  }

  lemma Reassociate(a: string, b: string, c: string)
    ensures a + (b + c) == a + b + c
  {
  }

  /** From inside single quotes the escaped text contributes exactly the text. */
  lemma {:induction false} LexesEscaped(s: string, rest: string, token: string, words: seq<string>)
    ensures Lex(Escaped(s) + rest, Single, token, true, words) == Lex(rest, Single, token + s, true, words)
  {
    if s == "" {
      assert Escaped(s) + rest == rest && token + s == token;
    } else {
      Reassociate(EscapedChar(s[0]), Escaped(s[1..]), rest);
      LexesEscapedChar(s[0], Escaped(s[1..]) + rest, token, words);
      LexesEscaped(s[1..], rest, token + [s[0]], words);
      assert token + [s[0]] + s[1..] == token + s;
    }
  }

  lemma OpensQuote(rest: string)
    ensures Split("'" + rest) == Lex(rest, Single, "", true, [])
  {
    assert ("'" + rest)[1..] == rest;
  }

  lemma ClosesQuote(token: string)
    ensures Lex("'", Single, token, true, []) == Some([token])
  {
    assert "'"[1..] == "";
    assert Lex("'", Single, token, true, []) == Lex("", Word, token, true, []);
    assert Emit([], token, true) == [token];
  }

  lemma SplitsSafeWord(s: string)
    requires s != "" && AllSafe(s)
    ensures Split(s) == Some([s])
  {
    assert Safe(s[0]);
    LexesSafeWord(s[1..], [s[0]], []);
    assert [s[0]] + s[1..] == s && [] + [s] == [s];
  }

  /** Splitting a quoted value gives that value as the only word, for every string. */
  lemma SplitInvertsQuote(s: string)
    ensures Split(Quote(s)) == Some([s])
  {
    if s == "" {
      assert Quote(s) == "'" + "'";
      OpensQuote("'");
      ClosesQuote("");
    } else if AllSafe(s) {
      SplitsSafeWord(s);
    } else {
      Reassociate("'", Escaped(s), "'");
      OpensQuote(Escaped(s) + "'");
      LexesEscaped(s, "'", "", []);
      assert "" + s == s;
      ClosesQuote(s);
    }
  }

  /** A quoted text that is cut before its closing quote does not split. */
  lemma SplitRejectsUnclosed(s: string)
    ensures Split("'" + Escaped(s)) == None
  {
    OpensQuote(Escaped(s));
    assert Escaped(s) + "" == Escaped(s);
    LexesEscaped(s, "", "", []);
  }

  // ----- values quoted by hand -----

  /** No double quote, and each backslash stands before a character that it does not escape there. */
  predicate PlainInDouble(t: string) {
    if t == "" then true
    else if t[0] == '\\' then |t| >= 2 && t[1] != '\"' && t[1] != '\\' && PlainInDouble(t[2..])
    else t[0] != '\"' && PlainInDouble(t[1..])
  }

  lemma LexesDoubleChar(c: char, tail: string, token: string, words: seq<string>)
    requires c != '\"' && c != '\\'
    ensures Lex([c] + tail, Double, token, true, words) == Lex(tail, Double, token + [c], true, words)
  {
    assert ([c] + tail)[1..] == tail;
  }

  lemma LexesKeptBackslash(c: char, tail: string, token: string, words: seq<string>)
    requires c != '\"' && c != '\\'
    ensures Lex(['\\', c] + tail, Double, token, true, words) == Lex(tail, Double, token + ['\\', c], true, words)
  {
    var s := ['\\', c] + tail;
    assert s[1..] == [c] + tail && ([c] + tail)[1..] == tail;
    assert Lex(s, Double, token, true, words) == Lex(s[1..], AfterBackslash(true), token, true, words);
    assert token + ['\\'] + [c] == token + ['\\', c];
  }

  lemma {:induction false} LexesPlainInDouble(t: string, rest: string, token: string, words: seq<string>)
    requires PlainInDouble(t)
    ensures Lex(t + rest, Double, token, true, words) == Lex(rest, Double, token + t, true, words)
    decreases |t|
  {
    if t == "" {
      assert t + rest == rest && token + t == token;
    } else if t[0] == '\\' {
      assert t + rest == ['\\', t[1]] + (t[2..] + rest);
      LexesKeptBackslash(t[1], t[2..] + rest, token, words);
      LexesPlainInDouble(t[2..], rest, token + ['\\', t[1]], words);
      assert token + ['\\', t[1]] + t[2..] == token + t;
    } else {
      assert t + rest == [t[0]] + (t[1..] + rest);
      LexesDoubleChar(t[0], t[1..] + rest, token, words);
      LexesPlainInDouble(t[1..], rest, token + [t[0]], words);
      assert token + [t[0]] + t[1..] == token + t;
    }
  }

  lemma OpensDouble(rest: string)
    ensures Split("\"" + rest) == Lex(rest, Double, "", true, [])
  {
    assert ("\"" + rest)[1..] == rest;
  }

  lemma ClosesDouble(token: string)
    ensures Lex("\"", Double, token, true, []) == Some([token])
  {
    assert "\""[1..] == "";
    assert Lex("\"", Double, token, true, []) == Lex("", Word, token, true, []);
    assert Emit([], token, true) == [token];
  }

  /** Double quotes keep everything but a double quote and the backslash before one of the two. */
  lemma DoubleQuotesKeep(t: string)
    requires PlainInDouble(t)
    ensures Split("\"" + t + "\"") == Some([t])
  {
    Reassociate("\"", t, "\"");
    OpensDouble(t + "\"");
    LexesPlainInDouble(t, "\"", "", []);
    assert "" + t == t;
    ClosesDouble(t);
  }

  function Backslashed(s: string): string {
    if s == "" then "" else ['\\', s[0]] + Backslashed(s[1..])
  }

  lemma LexesBackslashedChar(c: char, tail: string, token: string, words: seq<string>)
    ensures Lex(['\\', c] + tail, Word, token, false, words) == Lex(tail, Word, token + [c], false, words)
  {
    var s := ['\\', c] + tail;
    assert s[1..] == [c] + tail && ([c] + tail)[1..] == tail;
    assert Lex(s, Word, token, false, words) == Lex(s[1..], AfterBackslash(false), token, false, words);
    assert s[1..][0] == c;
    assert Lex(s[1..], AfterBackslash(false), token, false, words) == Lex(tail, Word, token + [c], false, words);
  }

  lemma {:induction false} LexesBackslashed(s: string, token: string)
    requires token + s != ""
    ensures Lex(Backslashed(s), Word, token, false, []) == Some([token + s])
  {
    if s == "" {
      assert token + s == token;
      assert Emit([], token, false) == [token];
    } else {
      LexesBackslashedChar(s[0], Backslashed(s[1..]), token, []);
      LexesBackslashed(s[1..], token + [s[0]]);
      assert token + [s[0]] + s[1..] == token + s;
    }
  }

  /** A backslash outside quotes keeps the character after it, whatever it is. */
  lemma BackslashKeeps(s: string)
    requires s != ""
    ensures Split(Backslashed(s)) == Some([s])
  {
    var t := Backslashed(s);
    assert t[1..] == [s[0]] + Backslashed(s[1..]) && t[1..][1..] == Backslashed(s[1..]);
    assert Split(t) == Lex(t[1..], AfterBackslash(false), "", false, []);
    assert t[1..][0] == s[0] && "" + [s[0]] == [s[0]];
    assert Split(t) == Lex(Backslashed(s[1..]), Word, [s[0]], false, []);
    LexesBackslashed(s[1..], [s[0]]);
    assert [s[0]] + s[1..] == s;
  }

  // ----- lines of the written file -----

  lemma BreaksOfJoin(s: string, t: string)
    ensures NoBreaks(s + t) <==> NoBreaks(s) && NoBreaks(t)
  {
    if NoBreaks(s + t) {
      forall i | 0 <= i < |s| ensures !LineBreak(s[i]) { assert (s + t)[i] == s[i]; }
      forall i | 0 <= i < |t| ensures !LineBreak(t[i]) { assert (s + t)[|s| + i] == t[i]; }
    }
  }

  lemma {:induction false} EscapedKeepsBreaks(s: string)
    ensures NoBreaks(Escaped(s)) <==> NoBreaks(s)
  {
    if s != "" {
      EscapedKeepsBreaks(s[1..]);
      BreaksOfJoin(EscapedChar(s[0]), Escaped(s[1..]));
      BreaksOfJoin([s[0]], s[1..]);
      assert [s[0]] + s[1..] == s;
    }
  }

  lemma QuoteKeepsBreaks(s: string)
    requires NoBreaks(s)
    ensures NoBreaks(Quote(s))
  {
    EscapedKeepsBreaks(s);
  }

  lemma {:induction false} FirstLineIs(s: string, k: nat)
    requires k <= |s| && NoBreaks(s[..k]) && (k < |s| ==> LineBreak(s[k]))
    ensures FirstLine(s) == k
  {
    var f := FirstLine(s);
    assert forall i :: 0 <= i < k ==> s[..k][i] == s[i];
    assert forall i :: 0 <= i < f ==> s[..f][i] == s[i];
  }

  lemma FirstLineOf(line: string, c: char, rest: string)
    requires NoBreaks(line) && LineBreak(c)
    ensures var s := line + [c] + rest; |Lines(s)| > 0 && Lines(s)[0] == line
    ensures c != '\r' ==> Lines(line + [c] + rest) == [line] + Lines(rest)
  {
    var s := line + [c] + rest;
    assert s[..|line|] == line && s[|line|] == c && s[|line| + 1..] == rest;
    FirstLineIs(s, |line|);
  }

  /** A carriage return and a line feed together end one line. */
  lemma CarriageReturnLineFeed(line: string, rest: string)
    requires NoBreaks(line)
    ensures Lines(line + "\r\n" + rest) == [line] + Lines(rest)
  {
    var s, k := line + "\r\n" + rest, |line|;
    assert s[..k] == line && s[k] == '\r' && s[k + 1] == '\n' && s[k + 2..] == rest;
    FirstLineIs(s, k);
  }

  // ----- stripping -----

  lemma StripKeeps(s: string)
    requires s != "" && !Space(s[0]) && !Space(s[|s| - 1])
    ensures Strip(s) == s
  {
  }

  lemma QuoteEndsInNoSpace(s: string)
    ensures Quote(s) != "" && !Space(Quote(s)[|Quote(s)| - 1])
  {
    if s != "" && AllSafe(s) { assert Safe(s[|s| - 1]); }
  }

  lemma {:induction false} EscapedSnoc(s: string)
    requires s != ""
    ensures Escaped(s) == Escaped(s[..|s| - 1]) + EscapedChar(s[|s| - 1])
  {
    if |s| == 1 {
      assert s[1..] == "" && s[..0] == "";
    } else {
      EscapedSnoc(s[1..]);
      assert s[1..][..|s| - 2] == s[..|s| - 1][1..];
      Reassociate(EscapedChar(s[0]), Escaped(s[..|s| - 1][1..]), EscapedChar(s[|s| - 1]));
    }
  }

  /** Stripping sees the last character of the value through its escape. */
  lemma StripRightEscaped(t: string, c: char)
    ensures StripRight(t + EscapedChar(c)) == if Space(c) then StripRight(t) else t + EscapedChar(c)
  {
    var u := t + EscapedChar(c);
    if Space(c) {
      assert u[..|u| - 1] == t;
    } else {
      assert !Space(u[|u| - 1]);
    }
  }

  lemma EscapedTake(prefix: string, s: string, n: nat)
    requires 0 < n <= |s|
    ensures prefix + Escaped(s[..n]) == prefix + Escaped(s[..n - 1]) + EscapedChar(s[n - 1])
  {
    EscapedSnoc(s[..n]);
    assert s[..n][..n - 1] == s[..n - 1];
    Reassociate(prefix, Escaped(s[..n - 1]), EscapedChar(s[n - 1]));
  }

  /** Stripping an unclosed value removes only whole characters of the value. */
  lemma {:induction false} StripUnclosed(prefix: string, s: string, n: nat) returns (m: nat)
    requires StripRight(prefix) == prefix && n <= |s|
    ensures m <= n && StripRight(prefix + Escaped(s[..n])) == prefix + Escaped(s[..m])
  {
    if n == 0 {
      m := 0;
      assert prefix + Escaped(s[..0]) == prefix;
    } else {
      EscapedTake(prefix, s, n);
      StripRightEscaped(prefix + Escaped(s[..n - 1]), s[n - 1]);
      if Space(s[n - 1]) { m := StripUnclosed(prefix, s, n - 1); } else { m := n; }
    }
  }

  // ----- one written line -----

  predicate IsName(name: string) { name == URL || name == TOKEN }

  lemma {:induction false} FirstEqualsIs(s: string, k: nat)
    requires k < |s| && s[k] == '=' && forall i :: 0 <= i < k ==> s[i] != '='
    ensures FirstEquals(s) == k
  {
    var f := FirstEquals(s);
    assert f <= k && k <= f;
  }

  lemma UrlFacts()
    ensures |URL| == 13 && URL[0] == 'P' && NoBreaks(URL)
    ensures '=' !in URL
  {
  }

  lemma TokenFacts()
    ensures |TOKEN| == 19 && TOKEN[0] == 'P' && NoBreaks(TOKEN)
    ensures '=' !in TOKEN
  {
  }

  lemma NameFacts(name: string)
    requires IsName(name)
    ensures name != "" && name[0] == 'P' && NoBreaks(name) && !Space(name[0])
    ensures '=' !in name
  {
    if name == URL { UrlFacts(); } else { TokenFacts(); }
  }

  lemma NamedLine(name: string, value: string)
    requires IsName(name)
    ensures var line := name + "=" + value;
      line != "" && line[0] == 'P' && FirstEquals(line) == |name| < |line| && line[..|name|] == name && line[|name| + 1..] == value
  {
    NameFacts(name);
    var line := name + "=" + value;
    assert line[|name|] == '=';
    forall i | 0 <= i < |name| ensures line[i] != '=' { assert line[i] == name[i] && name[i] in name; }
    FirstEqualsIs(line, |name|);
  }

  /** What one line that names a value contributes. */
  lemma ReadsNamedLine(values: map<string, string>, name: string, value: string, raw: string)
    requires IsName(name) && Strip(raw) == name + "=" + value
    ensures Split(value) == None ==> ReadLine(values, raw) == None
    ensures forall v :: Split(value) == Some([v]) ==> ReadLine(values, raw) == Some(values[name := v])
  {
    NamedLine(name, value);
  }

  lemma StripKeepsWritten(name: string, value: string)
    requires name != "" && !Space(name[0])
    ensures Strip(name + "=" + Quote(value)) == name + "=" + Quote(value)
  {
    var line := name + "=" + Quote(value);
    QuoteEndsInNoSpace(value);
    assert line[0] == name[0] && line[|line| - 1] == Quote(value)[|Quote(value)| - 1];
    StripKeeps(line);
  }

  lemma ReadsWrittenLine(values: map<string, string>, name: string, value: string)
    requires IsName(name)
    ensures ReadLine(values, name + "=" + Quote(value)) == Some(values[name := value])
  {
    NameFacts(name);
    StripKeepsWritten(name, value);
    SplitInvertsQuote(value);
    ReadsNamedLine(values, name, Quote(value), name + "=" + Quote(value));
  }

  lemma StripUnclosedLine(prefix: string, value: string) returns (m: nat)
    requires prefix != "" && !Space(prefix[0]) && !Space(prefix[|prefix| - 1])
    ensures m <= |value| && Strip(prefix + Escaped(value)) == prefix + Escaped(value[..m])
  {
    assert (prefix + Escaped(value))[0] == prefix[0];
    assert StripLeft(prefix + Escaped(value)) == prefix + Escaped(value);
    m := StripUnclosed(prefix, value, |value|);
    assert value[..|value|] == value;
  }

  lemma RejectsUnclosedLine(values: map<string, string>, name: string, value: string)
    requires IsName(name)
    ensures ReadLine(values, name + "=" + ("'" + Escaped(value))) == None
  {
    NameFacts(name);
    var m := StripUnclosedLine(name + "=" + "'", value);
    Reassociate(name + "=", "'", Escaped(value));
    Reassociate(name + "=", "'", Escaped(value[..m]));
    SplitRejectsUnclosed(value[..m]);
    ReadsNamedLine(values, name, "'" + Escaped(value[..m]), name + "=" + ("'" + Escaped(value)));
  }

  // ----- the file -----

  lemma RegroupBroken(p: string, a: string, c: char, b: string, rest: string)
    ensures p + ("'" + (a + [c] + b) + "'") + rest == p + ("'" + a) + [c] + (b + "'" + rest)
  {
  }

  lemma {:induction false} EscapedCut(s: string, k: nat)
    requires k < |s| && s[k] != '\''
    ensures Escaped(s) == Escaped(s[..k]) + [s[k]] + Escaped(s[k + 1..])
  {
    if k == 0 {
      assert s[..0] == "";
    } else {
      EscapedCut(s[1..], k - 1);
      assert s[1..][..k - 1] == s[..k][1..] && s[1..][k..] == s[k + 1..];
      Reassociate(EscapedChar(s[0]), Escaped(s[1..][..k - 1]), [s[k]]);
      Reassociate(EscapedChar(s[0]), Escaped(s[1..][..k - 1]) + [s[k]], Escaped(s[k + 1..]));
    }
  }

  /** The first line of a value with a line break is an unclosed quote. */
  lemma BrokenFirstLine(prefix: string, value: string, rest: string) returns (k: nat)
    requires NoBreaks(prefix) && !NoBreaks(value)
    ensures k <= |value|
    ensures var s := prefix + Quote(value) + rest;
      |Lines(s)| > 0 && Lines(s)[0] == prefix + ("'" + Escaped(value[..k]))
  {
    k := FirstLine(value);
    assert value[..|value|] == value;
    assert !AllSafe(value) by { assert LineBreak(value[k]) && !Safe(value[k]); }
    EscapedCut(value, k);
    EscapedKeepsBreaks(value[..k]);
    var line := prefix + ("'" + Escaped(value[..k]));
    BreaksOfJoin(prefix, "'" + Escaped(value[..k]));
    BreaksOfJoin("'", Escaped(value[..k]));
    var tail := Escaped(value[k + 1..]) + "'" + rest;
    RegroupBroken(prefix, Escaped(value[..k]), value[k], Escaped(value[k + 1..]), rest);
    FirstLineOf(line, value[k], tail);
  }

  lemma WrittenLine(name: string, value: string, rest: string)
    requires IsName(name) && NoBreaks(value)
    ensures Lines(name + "=" + Quote(value) + "\n" + rest) == [name + "=" + Quote(value)] + Lines(rest)
  {
    NameFacts(name);
    QuoteKeepsBreaks(value);
    BreaksOfJoin(name + "=", Quote(value));
    BreaksOfJoin(name, "=");
    FirstLineOf(name + "=" + Quote(value), '\n', rest);
  }

  lemma ReadLinesFirst(values: map<string, string>, line: string, rest: seq<string>)
    ensures ReadLines(values, [line] + rest) ==
      if ReadLine(values, line).None? then None else ReadLines(ReadLine(values, line).value, rest)
  {
    assert ([line] + rest)[1..] == rest;
  }

  /** The lines of a written value with a line break: an unclosed quote, and more. */
  lemma BrokenLines(prefix: string, value: string, rest: string) returns (k: nat, more: seq<string>)
    requires NoBreaks(prefix) && !NoBreaks(value)
    ensures k <= |value|
    ensures Lines(prefix + Quote(value) + "\n" + rest) == [prefix + ("'" + Escaped(value[..k]))] + more
  {
    k := BrokenFirstLine(prefix, value, "\n" + rest);
    Reassociate(prefix + Quote(value), "\n", rest);
    var lines := Lines(prefix + Quote(value) + "\n" + rest);
    more := lines[1..];
    assert lines == [lines[0]] + more;
  }

  lemma RejectsBrokenValue(values: map<string, string>, name: string, value: string, rest: string)
    requires IsName(name) && !NoBreaks(value)
    ensures ReadLines(values, Lines(name + "=" + Quote(value) + "\n" + rest)) == None
  {
    NameFacts(name);
    BreaksOfJoin(name, "=");
    var k, more := BrokenLines(name + "=", value, rest);
    RejectsUnclosedLine(values, name, value[..k]);
    ReadLinesFirst(values, name + "=" + ("'" + Escaped(value[..k])), more);
  }

  /**
    Reading after writing gives back exactly the two values, for every URL and token without a line
    separator; with one, reading fails.
   */
  lemma RoundTrip(url: string, token: string)
    ensures ReadLines(map[], Lines(ConfigText(url, token))) ==
      if NoBreaks(url) && NoBreaks(token) then Some(map[URL := url, TOKEN := token]) else None
  {
    var second := TOKEN + "=" + Quote(token) + "\n";
    if !NoBreaks(url) {
      RejectsBrokenValue(map[], URL, url, second);
    } else {
      WrittenLine(URL, url, second);
      ReadsWrittenLine(map[], URL, url);
      ReadLinesFirst(map[], URL + "=" + Quote(url), Lines(second));
      var values := map[][URL := url];
      assert second == second + "";
      if !NoBreaks(token) {
        RejectsBrokenValue(values, TOKEN, token, "");
      } else {
        WrittenLine(TOKEN, token, "");
        ReadsWrittenLine(values, TOKEN, token);
        ReadLinesFirst(values, TOKEN + "=" + Quote(token), []);
        assert Lines("") == [];
        assert [TOKEN + "=" + Quote(token)] + [] == [TOKEN + "=" + Quote(token)];
        assert values[TOKEN := token] == map[URL := url, TOKEN := token];
      }
    }
  }
}
