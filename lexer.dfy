/** The token reader of a definition file: it skips comments, splits a closing
    brace off the token it is fused to, and expands the repeat shorthand `X[n]`
    and the ranges `X[a:b]Y` and `[a:b]Y` into a flat token stream, with one token
    of pushback.  It models Circuit.java's getToken2, getRepeatToken,
    initRepeatToken and ungetToken, whose state lives in the fields repeatHead,
    repeatTail, repeatStart, repeatEnd, repeatVal, repeatTimes and extraToken. */
module Lexer {
  import opened JavaLang
  import opened Errors

  /** One item of the scanned file: the text between two delimiters (possibly
      empty), or the end of a line, which is itself a delimiter. */
  datatype Raw = Word(text: string) | LineBreak

  /** What successive calls of GetToken deliver: these tokens, and then either
      the end of the input or, if illegal holds, an illegal repeater. */
  datatype Stream = Stream(tokens: seq<string>, illegal: bool)

  const Keywords: seq<string> := [
    "inputNames", "outputNames", "outputs", "truthTable",
    "circuit", "circuitInputs", "propagationDelay"
  ]

  predicate IsKeyword(s: string) {
    s in Keywords
  }

  /** No keyword contains a decimal digit. */
  lemma KeywordHasNoDigit(s: string)
    requires IsKeyword(s)
    ensures forall i :: 0 <= i < |s| ==> !IsDigit(s[i])
  {
  }

  /** The parsed form of a bracket token: `X[n]` repeats X n times; `X[a:b]Y` and
      `[a:b]Y` count from a to b. */
  datatype Repeater =
    | Times(head: string, times: int)
    | Range(head: string, start: int, end: int, tail: string)

  /** initRepeatToken's reading of s; `None` is the "Illegal repeater" error (a
      missing piece or an unparsable number). */
  function ParseRepeater(s: string): Option<Repeater>
  {
    if ':' !in s then
      var ts := SplitRepeat(s);
      if |ts| < 2 then None
      else match ParseInt(ts[1])
        case None => None
        case Some(n) => Some(Times(ts[0], n))
    else if s[0] == '[' then
      var ts := SplitRepeat(s[1..]);
      if |ts| < 3 then None
      else match (ParseInt(ts[0]), ParseInt(ts[1]))
        case (Some(a), Some(b)) => Some(Range("", a, b, ts[2]))
        case _ => None
    else
      var ts := SplitRepeat(s);
      if |ts| < 3 then None
      else match (ParseInt(ts[1]), ParseInt(ts[2]))
        case (Some(a), Some(b)) => Some(Range(ts[0], a, b, if |ts| > 3 then ts[3] else ""))
        case _ => None
  }

  /** The tokens head + v + tail for v running from v to end, one step at a time. */
  function RangeTokens(head: string, v: int, end: int, tail: string): seq<string>
    decreases if v <= end then end - v else v - end
  {
    [head + IntToString(v) + tail] +
    (if v > end then RangeTokens(head, v - 1, end, tail)
     else if v < end then RangeTokens(head, v + 1, end, tail)
     else [])
  }

  /** One token of a range: the number v between head and tail. */
  function Numbered(head: string, v: int, tail: string): string {
    head + IntToString(v) + tail
  }

  /** The distance a range token still has to count. */
  function Distance(v: int, end: int): nat {
    if v <= end then end - v else v - end
  }

  /** The number carried by the k-th token of a range from v towards end. */
  function Step(v: int, end: int, k: nat): int {
    if v <= end then v + k else v - k
  }

  lemma {:induction false} RangeTokensLength(head: string, v: int, end: int, tail: string)
    ensures |RangeTokens(head, v, end, tail)| == Distance(v, end) + 1
    decreases Distance(v, end)
  {
    if v > end {
      RangeTokensLength(head, v - 1, end, tail);
    } else if v < end {
      RangeTokensLength(head, v + 1, end, tail);
    }
  }

  lemma {:induction false} RangeTokensElement(head: string, v: int, end: int, tail: string, k: nat)
    requires k <= Distance(v, end)
    ensures k < |RangeTokens(head, v, end, tail)| &&
      RangeTokens(head, v, end, tail)[k] == Numbered(head, Step(v, end, k), tail)
    decreases k
  {
    RangeTokensLength(head, v, end, tail);
    if k > 0 {
      var w := if v > end then v - 1 else v + 1;
      RangeTokensElement(head, w, end, tail, k - 1);
      assert Step(w, end, k - 1) == Step(v, end, k);
    }
  }

  /** A range a:b gives |b - a| + 1 tokens, the k-th carrying a + k when it
      counts up and a - k when it counts down. */
  lemma RangeTokensAt(head: string, v: int, end: int, tail: string)
    ensures |RangeTokens(head, v, end, tail)| == Distance(v, end) + 1
    ensures forall k: nat :: k <= Distance(v, end) ==>
      RangeTokens(head, v, end, tail)[k] == Numbered(head, Step(v, end, k), tail)
  {
    RangeTokensLength(head, v, end, tail);
    forall k: nat | k <= Distance(v, end)
      ensures RangeTokens(head, v, end, tail)[k] == Numbered(head, Step(v, end, k), tail)
    {
      RangeTokensElement(head, v, end, tail, k);
    }
  }

  /** A count repeater with a count of zero or less makes getRepeatToken read
      range state left over from an earlier token; a keyword produced by a count
      repeater, or fused to a closing brace, would be pushed back over a token
      that is still pending.  The model leaves these words out. */
  predicate SupportedRepeater(s: string) {
    match ParseRepeater(s)
    case Some(Times(head, n)) => n >= 1 && !IsKeyword(head)
    case _ => true
  }

  /** n copies of t. */
  function Copies(t: string, n: nat): (r: seq<string>)
    ensures |r| == n && forall i :: 0 <= i < n ==> r[i] == t
  {
    if n == 0 then [] else [t] + Copies(t, n - 1)
  }

  function Expansion(r: Repeater): seq<string>
    requires r.Times? ==> r.times >= 1
  {
    match r
    case Times(head, n) => Copies(head, n)
    case Range(head, a, b, tail) => RangeTokens(head, a, b, tail)
  }

  predicate FusedBrace(w: string) {
    w != "}" && EndsWith(w, "}")
  }

  /** The words the model covers; splitBrace says whether a closing brace fused
      to the end of w is still to be split off. */
  predicate SupportedWord(w: string, splitBrace: bool)
    decreases |w|, splitBrace
  {
    if splitBrace then
      if FusedBrace(w) then !IsKeyword(w[..|w| - 1]) && SupportedWord(w[..|w| - 1], false)
      else SupportedWord(w, false)
    else
      '[' in w ==> SupportedRepeater(w)
  }

  predicate Supported(raw: seq<Raw>) {
    raw == [] || ((raw[0].Word? ==> SupportedWord(raw[0].text, true)) && Supported(raw[1..]))
  }

  /** The tokens one word of the file stands for; `None` for an illegal repeater.
      A closing brace fused to the end of a word (splitBrace) is a token of its
      own after the tokens of the rest of the word. */
  function WordTokens(w: string, splitBrace: bool): Option<seq<string>>
    requires SupportedWord(w, splitBrace)
    decreases |w|, splitBrace
  {
    if splitBrace then
      if FusedBrace(w) then
        match WordTokens(w[..|w| - 1], false)
        case None => None
        case Some(ts) => Some(ts + ["}"])
      else WordTokens(w, false)
    else if '[' in w then
      match ParseRepeater(w)
      case None => None
      case Some(r) => Some(Expansion(r))
    else Some([w])
  }

  /** Scanner.nextLine after a comment token: everything up to and including the
      next line break. */
  function SkipLine(raw: seq<Raw>): (r: seq<Raw>)
    ensures |r| <= |raw| && r == raw[|raw| - |r|..]
  {
    if raw == [] then []
    else if raw[0] == LineBreak then raw[1..]
    else SkipLine(raw[1..])
  }

  /** The token stream of a scanned file. */
  ghost function Tokenize(raw: seq<Raw>): Stream
    requires Supported(raw)
    decreases |raw|
  {
    if raw == [] then Stream([], false)
    else if raw[0].LineBreak? || raw[0].text == "" then Tokenize(raw[1..])
    else if StartsWith(raw[0].text, "#") then
      SupportedSuffix(raw[1..], |raw[1..]| - |SkipLine(raw[1..])|);
      Tokenize(SkipLine(raw[1..]))
    else
      Prepend(WordTokens(raw[0].text, true), Tokenize(raw[1..]))
  }

  /** The tokens of one word in front of a stream; an illegal repeater ends the
      stream there. */
  function Prepend(word: Option<seq<string>>, rest: Stream): Stream {
    match word
    case None => Stream([], true)
    case Some(ts) => Stream(ts + rest.tokens, rest.illegal)
  }

  /** The tokens that repeat state still has to deliver: n copies of the head in
      the count case (times > 0), the rest of the range otherwise. */
  function PendingOf(head: Option<string>, times: int, v: int, end: int, tail: string): seq<string>
  {
    match head
    case None => []
    case Some(h) => if times > 0 then Copies(h, times) else RangeTokens(h, v, end, tail)
  }

  /** The first token of a word, and what the word leaves in the repeat state
      and the pushback slot, in that order, is exactly the word's tokens. */
  lemma {:induction false} CopiesTail(t: string, n: nat)
    requires n >= 1
    ensures Copies(t, n)[1..] == Copies(t, n - 1)
  {
  }

  class Lexer {
    const source: seq<Raw>
    var pos: nat
    var extraToken: Option<string>
    var repeatHead: Option<string>
    var repeatTail: string
    var repeatStart: int
    var repeatEnd: int
    var repeatVal: int
    var repeatTimes: int

    ghost predicate Valid()
      reads this
    {
      pos <= |source| && Supported(source[pos..]) &&
      repeatTimes >= 0 && (repeatHead.None? ==> repeatTimes == 0) &&
      (repeatHead.Some? && repeatTimes > 0 ==> !IsKeyword(repeatHead.value))
    }

    /** The tokens the repeat state still has to deliver. */
    ghost function Pending(): seq<string>
      reads this
    {
      PendingOf(repeatHead, repeatTimes, repeatVal, repeatEnd, repeatTail)
    }

    ghost function Extra(): seq<string>
      reads this
    {
      if extraToken.Some? then [extraToken.value] else []
    }

    /** Everything the lexer will still deliver: the pending repeat tokens, the
        pushed-back token, then the tokens of the unread part of the file. */
    ghost function Remaining(): Stream
      reads this
      requires Valid()
    {
      var rest := Tokenize(source[pos..]);
      Stream(Pending() + Extra() + rest.tokens, rest.illegal)
    }

    constructor (source: seq<Raw>)
      requires Supported(source)
      ensures Valid() && this.source == source
      ensures Pending() == [] && extraToken.None?
      ensures Remaining() == Tokenize(source)
    {
      this.source := source;
      pos := 0;
      extraToken := None;
      repeatHead := None;
      repeatTail := "";
      repeatStart, repeatEnd, repeatVal, repeatTimes := 0, 0, 0, 0;
    }

    method GetRepeatToken() returns (t: string)
      requires Valid() && repeatHead.Some?
      modifies this
      ensures Valid() && pos == old(pos) && extraToken == old(extraToken)
      ensures old(Pending()) != [] && t == old(Pending())[0]
      ensures Pending() == old(Pending())[1..]
    {
      // the count case X[n]
      if repeatTimes > 0 {
        t := repeatHead.value;
        CopiesTail(t, repeatTimes);
        repeatTimes := repeatTimes - 1;
        if repeatTimes == 0 {
          repeatHead := None;
          repeatTail := "";
        }
        return;
      }
      // the range cases X[a:b]Y and [a:b]Y
      t := repeatHead.value + IntToString(repeatVal) + repeatTail;
      if repeatVal > repeatEnd {
        repeatVal := repeatVal - 1;
      } else if repeatVal < repeatEnd {
        repeatVal := repeatVal + 1;
      } else {
        repeatHead := None;
        repeatTail := "";
      }
    }

    method InitRepeatToken(s: string) returns (ok: bool)
      requires Valid() && repeatHead.None? && SupportedRepeater(s)
      modifies this
      ensures pos == old(pos) && extraToken == old(extraToken)
      ensures ok == ParseRepeater(s).Some?
      ensures ok ==> Valid() && repeatHead.Some? && Pending() == Expansion(ParseRepeater(s).value)
    {
      if ':' !in s {
        var tokens := SplitRepeat(s);
        if |tokens| < 2 {
          return false;
        }
        var n := ParseInt(tokens[1]);
        if n.None? {
          return false;
        }
        repeatHead := Some(tokens[0]);
        repeatTail := "";
        repeatTimes := n.value;
        return true;
      } else if s[0] == '[' {
        var tokens := SplitRepeat(s[1..]);
        repeatHead := Some("");
        if |tokens| < 3 {
          return false;
        }
        var a, b := ParseInt(tokens[0]), ParseInt(tokens[1]);
        if a.None? || b.None? {
          return false;
        }
        repeatStart, repeatEnd := a.value, b.value;
        repeatTail := tokens[2];
        repeatVal := repeatStart;
        return true;
      } else {
        var tokens := SplitRepeat(s);
        if |tokens| < 3 {
          return false;
        }
        var a, b := ParseInt(tokens[1]), ParseInt(tokens[2]);
        if a.None? || b.None? {
          return false;
        }
        repeatHead := Some(tokens[0]);
        repeatStart, repeatEnd := a.value, b.value;
        repeatTail := if |tokens| > 3 then tokens[3] else "";
        repeatVal := repeatStart;
        return true;
      }
    }

    /** The branches of getToken2 for one word that is neither empty nor a
        comment: the closing brace, a word fused with a closing brace (the brace
        is queued as extraToken), a bracket token (expanded), a plain word. */
    method ReadWord(token: string) returns (r: Result<Option<string>>)
      requires Valid() && repeatHead.None? && extraToken.None?
      requires SupportedWord(token, true)
      modifies this
      ensures pos == old(pos)
      ensures WordTokens(token, true).None? ==> r.Fail? && r.error.IllegalRepeater?
      ensures WordTokens(token, true).Some? ==>
        Valid() && WordTokens(token, true).value != [] &&
        r == Ok(Some(WordTokens(token, true).value[0])) &&
        Pending() + Extra() == WordTokens(token, true).value[1..]
      ensures r.Ok? && r.value.Some? && IsKeyword(r.value.value) ==>
        Pending() == [] && extraToken.None?
    {
      if token == "}" {
        assert WordTokens(token, true) == WordTokens(token, false) == Some(["}"]);
        return Ok(Some(token));
      }
      if EndsWith(token, "}") {
        extraToken := Some("}");
        var t := token[..|token| - 1];
        if '[' in t {
          r := ReadRepeater(t);
          return;
        }
        assert WordTokens(t, false) == Some([t]);
        return Ok(Some(t));
      }
      assert WordTokens(token, true) == WordTokens(token, false);
      if '[' in token {
        r := ReadRepeater(token);
        return;
      }
      return Ok(Some(token));
    }

    /** A bracket token: initRepeatToken, then the first getRepeatToken. */
    method ReadRepeater(t: string) returns (r: Result<Option<string>>)
      requires Valid() && repeatHead.None? && SupportedRepeater(t)
      modifies this
      ensures pos == old(pos) && extraToken == old(extraToken)
      ensures ParseRepeater(t).None? ==> r == Fail(IllegalRepeater(t))
      ensures ParseRepeater(t).Some? ==>
        Valid() && Expansion(ParseRepeater(t).value) != [] &&
        r == Ok(Some(Expansion(ParseRepeater(t).value)[0])) &&
        Pending() == Expansion(ParseRepeater(t).value)[1..] &&
        !IsKeyword(r.value.value)
    {
      var ok := InitRepeatToken(t);
      if !ok {
        return Fail(IllegalRepeater(t));
      }
      ExpansionHeadIsNoKeyword(ParseRepeater(t).value);
      var tok := GetRepeatToken();
      return Ok(Some(tok));
    }

    /** The part of the scanning loop of getToken2 that passes over line
        breaks, empty words and comments. */
    method SkipBlanks()
      requires Valid()
      modifies this`pos
      ensures Valid() && Tokenize(source[pos..]) == old(Tokenize(source[pos..]))
      ensures pos < |source| ==>
        source[pos].Word? && source[pos].text != "" && !StartsWith(source[pos].text, "#")
    {
      ghost var rest := Tokenize(source[pos..]);
      while pos < |source| && (source[pos].LineBreak? || source[pos].text == "" ||
        StartsWith(source[pos].text, "#"))
        invariant Valid() && Tokenize(source[pos..]) == rest
        decreases |source| - pos
      {
        SkipItem();
      }
    }

    /** One blank item, or one comment with the rest of its line. */
    method SkipItem()
      requires Valid() && pos < |source|
      requires source[pos].LineBreak? || source[pos].text == "" || StartsWith(source[pos].text, "#")
      modifies this`pos
      ensures Valid() && pos > old(pos)
      ensures Tokenize(source[pos..]) == old(Tokenize(source[pos..]))
    {
      ghost var cur := source[pos..];
      assert cur[1..] == source[pos + 1..];
      if source[pos].Word? && source[pos].text != "" {
        TokenizeComment(cur);
        // Scanner.nextLine: the rest of the line, its line break included
        var line := source[pos + 1..];
        var k := |line| - |SkipLine(line)|;
        DropDrop(source, pos + 1, k);
        pos := pos + 1 + k;
        assert source[pos..] == SkipLine(cur[1..]);
      } else {
        TokenizeBlank(cur);
        pos := pos + 1;
      }
    }

    /** The scanning loop of getToken2, entered when no repeat is active and no
        token is pushed back. */
    method ReadSource() returns (r: Result<Option<string>>)
      requires Valid() && repeatHead.None? && extraToken.None?
      modifies this
      ensures var rest := old(Tokenize(source[pos..]));
        (rest.tokens != [] ==>
          r == Ok(Some(rest.tokens[0])) && Valid() &&
          Remaining() == Stream(rest.tokens[1..], rest.illegal)) &&
        (rest.tokens == [] && !rest.illegal ==> r == Ok(None) && Valid() && Remaining() == rest) &&
        (rest.tokens == [] && rest.illegal ==> r.Fail? && r.error.IllegalRepeater?)
      ensures r.Ok? && r.value.Some? && IsKeyword(r.value.value) ==>
        Pending() == [] && extraToken.None?
    {
      SkipBlanks();
      if pos == |source| {
        return Ok(None);
      }
      r := ReadNextWord();
    }

    /** The word at pos, which is neither empty nor a comment. */
    method ReadNextWord() returns (r: Result<Option<string>>)
      requires Valid() && repeatHead.None? && extraToken.None? && pos < |source|
      requires source[pos].Word? && source[pos].text != "" && !StartsWith(source[pos].text, "#")
      modifies this
      ensures var rest := old(Tokenize(source[pos..]));
        (rest.tokens != [] ==>
          r == Ok(Some(rest.tokens[0])) && Valid() &&
          Remaining() == Stream(rest.tokens[1..], rest.illegal)) &&
        (rest.tokens == [] ==> rest.illegal && r.Fail? && r.error.IllegalRepeater?)
      ensures r.Ok? && r.value.Some? && IsKeyword(r.value.value) ==>
        Pending() == [] && extraToken.None?
    {
      ghost var rest := Tokenize(source[pos..]);
      var token := source[pos].text;
      TokenizeWord(source[pos..]);
      assert source[pos..][1..] == source[pos + 1..];
      pos := pos + 1;
      ghost var more := Tokenize(source[pos..]);
      r := ReadWord(token);
      PrependTail(WordTokens(token, true), more);
    }

    /** getToken2: the next token, `None` at the end of the file. */
    method GetToken() returns (r: Result<Option<string>>)
      requires Valid()
      modifies this
      ensures old(Remaining()).tokens != [] ==>
        r == Ok(Some(old(Remaining()).tokens[0])) && Valid() &&
        Remaining() == Stream(old(Remaining()).tokens[1..], old(Remaining()).illegal)
      ensures old(Remaining()).tokens == [] && !old(Remaining()).illegal ==>
        r == Ok(None) && Valid() && Remaining() == old(Remaining())
      ensures old(Remaining()).tokens == [] && old(Remaining()).illegal ==>
        r.Fail? && r.error.IllegalRepeater?
      ensures r.Ok? && r.value.Some? && IsKeyword(r.value.value) ==>
        Pending() == [] && extraToken.None?
    {
      if repeatHead.Some? {
        RepeatTokenIsNoKeyword(repeatHead.value, repeatTimes, repeatVal, repeatEnd, repeatTail);
        var t := GetRepeatToken();
        return Ok(Some(t));
      }
      if extraToken.Some? {
        var t := extraToken.value;
        extraToken := None;
        return Ok(Some(t));
      }
      r := ReadSource();
    }

    /** ungetToken: push back one token; a token pushed back earlier and not read
        since is overwritten. */
    method UngetToken(t: string)
      requires Valid()
      modifies this`extraToken
      ensures Valid() && extraToken == Some(t)
      ensures Remaining().tokens == Pending() + [t] + Tokenize(source[pos..]).tokens
      ensures old(Pending()) == [] && old(extraToken).None? ==>
        Remaining() == Stream([t] + old(Remaining()).tokens, old(Remaining()).illegal)
    {
      ghost var pending, rest := Pending(), Tokenize(source[pos..]);
      ghost var before := old(Remaining());
      extraToken := Some(t);
      assert Pending() == pending && Extra() == [t];
      assert Remaining() == Stream(pending + [t] + rest.tokens, rest.illegal);
      if pending == [] && old(extraToken).None? {
        assert before.tokens == rest.tokens;
        assert pending + [t] + rest.tokens == [t] + rest.tokens;
      }
    }
  }

  /** A token of a range carries a decimal number, so it is never a keyword. */
  lemma RangeTokenIsNoKeyword(head: string, v: int, tail: string)
    ensures !IsKeyword(head + IntToString(v) + tail)
  {
    IntToStringHasDigit(v);
    var s := head + IntToString(v) + tail;
    var i :| 0 <= i < |IntToString(v)| && IsDigit(IntToString(v)[i]);
    assert s[|head| + i] == IntToString(v)[i];
    if IsKeyword(s) {
      KeywordHasNoDigit(s);
    }
  }

  lemma RepeatTokenIsNoKeyword(head: string, times: int, v: int, end: int, tail: string)
    requires times > 0 ==> !IsKeyword(head)
    ensures times > 0 ==> !IsKeyword(head)
    ensures times <= 0 ==> !IsKeyword(RangeTokens(head, v, end, tail)[0])
  {
    RangeTokenIsNoKeyword(head, v, tail);
  }

  /** The first token of a supported expansion is never a keyword. */
  lemma ExpansionHeadIsNoKeyword(r: Repeater)
    requires r.Times? ==> r.times >= 1 && !IsKeyword(r.head)
    ensures Expansion(r) != [] && !IsKeyword(Expansion(r)[0])
  {
    if r.Range? {
      RangeTokenIsNoKeyword(r.head, r.start, r.tail);
    }
  }

  lemma {:induction false} SupportedSuffix(raw: seq<Raw>, k: nat)
    requires Supported(raw) && k <= |raw|
    ensures Supported(raw[k..])
  {
    if k > 0 {
      SupportedSuffix(raw[1..], k - 1);
      assert raw[1..][k - 1..] == raw[k..];
    }
  }

  /** Tokenize passes over a line break or an empty word. */
  lemma TokenizeBlank(raw: seq<Raw>)
    requires Supported(raw) && raw != [] && (raw[0].LineBreak? || raw[0].text == "")
    ensures Supported(raw[1..]) && Tokenize(raw) == Tokenize(raw[1..])
  {
  }

  /** Tokenize drops a comment up to the end of its line. */
  lemma TokenizeComment(raw: seq<Raw>)
    requires Supported(raw) && raw != [] && raw[0].Word? && raw[0].text != ""
    requires StartsWith(raw[0].text, "#")
    ensures Supported(SkipLine(raw[1..])) && Tokenize(raw) == Tokenize(SkipLine(raw[1..]))
  {
    SupportedSuffix(raw[1..], |raw[1..]| - |SkipLine(raw[1..])|);
  }

  /** Tokenize puts the tokens of a word in front of the tokens of the rest. */
  lemma TokenizeWord(raw: seq<Raw>)
    requires Supported(raw) && raw != [] && raw[0].Word? && raw[0].text != ""
    requires !StartsWith(raw[0].text, "#")
    ensures SupportedWord(raw[0].text, true) && Supported(raw[1..])
    ensures Tokenize(raw) == Prepend(WordTokens(raw[0].text, true), Tokenize(raw[1..]))
  {
  }

  lemma PrependTail(word: Option<seq<string>>, rest: Stream)
    requires word.Some? ==> word.value != []
    ensures word.None? ==> Prepend(word, rest) == Stream([], true)
    ensures word.Some? ==>
      Prepend(word, rest).tokens != [] &&
      Prepend(word, rest).tokens[0] == word.value[0] &&
      Prepend(word, rest).tokens[1..] == word.value[1..] + rest.tokens &&
      Prepend(word, rest).illegal == rest.illegal
  {
    if word.Some? {
      assert (word.value + rest.tokens)[1..] == word.value[1..] + rest.tokens;
    }
  }

  lemma DropDrop<T>(s: seq<T>, i: nat, j: nat)
    requires i + j <= |s|
    ensures s[i..][j..] == s[i + j..]
  {
  }

  /** r is what the specification `spec` of a section reader says: its value, with
      the lexer left at the rest of the stream, or its error (an illegal repeater
      met at the end of the stream fails with that repeater's own text). */
  ghost predicate Follows<T>(r: Result<T>, spec: Result<(T, Stream)>, lexer: Lexer)
    reads lexer
  {
    match spec
    case Fail(e) => r.Fail? && (if e.IllegalRepeater? then r.error.IllegalRepeater? else r.error == e)
    case Ok((v, rest)) => r == Ok(v) && lexer.Valid() && lexer.Remaining() == rest
  }
}
