/** runTestCase: a test file is read with the same token reader as a definition
    file.  Each `testCase` is followed by the bits of the inputs and then the
    desired bits of the outputs, taken from the '0' and '1' characters of as many
    tokens as it takes; the circuit is simulated on the inputs and every output
    that differs from its desired bit counts as an error.  Closing braces between
    test cases are skipped. */
module TestRunner {
  import opened Bits
  import opened JavaLang
  import opened Errors
  import opened Lexer
  import opened Circuits
  import opened Simulator
  import opened TableText

  /** One test case as it ran: the inputs set, the outputs wanted, the outputs got. */
  datatype Case = Case(inputs: seq<int>, desired: seq<int>, actual: seq<int>)

  // ---------------------------------------------------------------- specification

  /** The '0' and '1' characters of a token, as bits, in order; any other
      character is ignored. */
  function BitsOf(t: string): (b: seq<int>)
    ensures AllBits(b) && |b| <= |t|
  {
    if t == [] then []
    else
      var last := t[|t| - 1];
      BitsOf(t[..|t| - 1]) + (if last == '0' || last == '1' then [last as int - '0' as int] else [])
  }

  /** The bits of `count` cells, `got` of them read: whole tokens until there are
      enough or the file ends.  A token with more bits than are still wanted
      writes past the end of the array. */
  function ReadBits(count: nat, got: seq<int>, s: Stream): (r: Result<(seq<int>, Stream)>)
    requires |got| <= count
    ensures r.Ok? ==> |r.value.1.tokens| <= |s.tokens| && got <= r.value.0 && |r.value.0| <= count
    ensures r.Ok? && AllBits(got) ==> AllBits(r.value.0)
    decreases |s.tokens|
  {
    if |got| == count then Ok((got, s))
    else if s.tokens == [] then (if s.illegal then Fail(IllegalRepeater("")) else Ok((got, s)))
    else
      var b := BitsOf(s.tokens[0]);
      if |got| + |b| > count then Fail(TooManyBits)
      else ReadBits(count, got + b, Tail(s))
  }

  /** The body of a test case: n input bits, then m desired output bits. */
  function TestCase(n: nat, m: nat, s: Stream): (r: Result<(seq<int>, seq<int>, Stream)>)
    ensures r.Ok? ==> |r.value.0| == n && |r.value.1| == m && AllBits(r.value.0)
    ensures r.Ok? ==> |r.value.2.tokens| <= |s.tokens|
  {
    var ins :- ReadBits(n, [], s);
    var outs :- ReadBits(m, [], ins.1);
    if |ins.0| != n || |outs.0| != m then Fail(IncompleteTestCase)
    else Ok((ins.0, outs.0, outs.1))
  }

  /** The positions where the actual outputs differ from the desired ones. */
  function Mismatches(actual: seq<int>, desired: seq<int>): (n: nat)
    requires |actual| == |desired|
    ensures n <= |actual|
  {
    if actual == [] then 0
    else
      var k := |actual| - 1;
      Mismatches(actual[..k], desired[..k]) + (if actual[k] != desired[k] then 1 else 0)
  }

  /** The errors of a run of test cases. */
  function TotalErrors(cases: seq<Case>): nat {
    if cases == [] then 0
    else
      var k := |cases| - 1;
      TotalErrors(cases[..k]) +
      (if |cases[k].actual| == |cases[k].desired| then Mismatches(cases[k].actual, cases[k].desired) else 0)
  }

  /** The test cases of a test file, run in order on the cells st of c, each from
      the cells the previous one left; and the cells at the end. */
  function Cases(c: Circuit, st: State, s: Stream): (r: Result<(seq<Case>, State)>)
    requires WellFormed(c) && Fits(c, st) && Settled(c, st)
    ensures r.Ok? ==> Fits(c, r.value.1) && Settled(c, r.value.1)
    decreases |s.tokens|
  {
    if s.tokens == [] then (if s.illegal then Fail(IllegalRepeater("")) else Ok(([], st)))
    else if s.tokens[0] == "testCase" then
      var tc :- TestCase(|c.inputNames|, |c.outputNames|, Tail(s));
      SettledBelow(c, st, st.(inputs := tc.0));
      var t := Run(c, st.(inputs := tc.0), Logic);
      var rest :- Cases(c, t, tc.2);
      Ok(([Case(tc.0, tc.1, t.outputs)] + rest.0, rest.1))
    else if s.tokens[0] == "}" then Cases(c, st, Tail(s))
    else Fail(UnknownTestCommand(s.tokens[0]))
  }

  /** Cases already run, before the outcome of the rest. */
  function After(done: seq<Case>, r: Result<(seq<Case>, State)>): Result<(seq<Case>, State)> {
    match r
    case Fail(e) => Fail(e)
    case Ok((cases, t)) => Ok((done + cases, t))
  }

  // ---------------------------------------------------------------- properties

  lemma {:induction false} BitsOfAppend(t: string, u: string)
    ensures BitsOf(t + u) == BitsOf(t) + BitsOf(u)
    decreases |u|
  {
    if u == [] {
      assert t + u == t;
    } else {
      var k := |u| - 1;
      assert (t + u)[..|t + u| - 1] == t + u[..k];
      BitsOfAppend(t, u[..k]);
    }
  }

  /** A token made of '0' and '1' only gives one bit per character. */
  lemma {:induction false} BitsOfBinary(t: string)
    requires forall i :: 0 <= i < |t| ==> t[i] == '0' || t[i] == '1'
    ensures |BitsOf(t)| == |t|
    ensures forall i :: 0 <= i < |t| ==> BitsOf(t)[i] == t[i] as int - '0' as int
  {
    if t != [] {
      BitsOfBinary(t[..|t| - 1]);
    }
  }

  /** No mismatch exactly when the outputs are the desired ones. */
  lemma {:induction false} NoMismatch(actual: seq<int>, desired: seq<int>)
    requires |actual| == |desired|
    ensures Mismatches(actual, desired) == 0 <==> actual == desired
    decreases |actual|
  {
    if actual != [] {
      var k := |actual| - 1;
      NoMismatch(actual[..k], desired[..k]);
      assert actual == actual[..k] + [actual[k]] && desired == desired[..k] + [desired[k]];
    }
  }

  /** "ALL TEST CASES PASSED" is printed exactly when every case got its outputs. */
  lemma {:induction false} AllPassed(cases: seq<Case>)
    requires forall i :: 0 <= i < |cases| ==> |cases[i].actual| == |cases[i].desired|
    ensures TotalErrors(cases) == 0 <==> forall i :: 0 <= i < |cases| ==> cases[i].actual == cases[i].desired
    decreases |cases|
  {
    if cases != [] {
      var k := |cases| - 1;
      AllPassed(cases[..k]);
      NoMismatch(cases[k].actual, cases[k].desired);
      assert forall i :: 0 <= i < k ==> cases[..k][i] == cases[i];
    }
  }

  /** Every case of a run has one bit per input, output and desired output. */
  lemma {:induction false} CasesShaped(c: Circuit, st: State, s: Stream)
    requires WellFormed(c) && Fits(c, st) && Settled(c, st) && Cases(c, st, s).Ok?
    ensures forall i :: 0 <= i < |Cases(c, st, s).value.0| ==>
      var k := Cases(c, st, s).value.0[i];
      |k.inputs| == |c.inputNames| && |k.desired| == |k.actual| == |c.outputNames| && AllBits(k.inputs)
    decreases |s.tokens|
  {
    if s.tokens != [] && s.tokens[0] == "testCase" {
      var tc := TestCase(|c.inputNames|, |c.outputNames|, Tail(s)).value;
      CasesShaped(c, Run(c, st.(inputs := tc.0), Logic), tc.2);
    } else if s.tokens != [] && s.tokens[0] == "}" {
      CasesShaped(c, st, Tail(s));
    }
  }

  lemma AfterAfter(done: seq<Case>, more: seq<Case>, r: Result<(seq<Case>, State)>)
    ensures After(done, After(more, r)) == After(done + more, r)
  {
    if r.Ok? {
      assert done + (more + r.value.0) == (done + more) + r.value.0;
    }
  }

  /** How a run goes on from a testCase keyword. */
  lemma CaseStep(c: Circuit, st: State, s: Stream)
    requires WellFormed(c) && Fits(c, st) && Settled(c, st) && s.tokens != [] && s.tokens[0] == "testCase"
    ensures var tc := TestCase(|c.inputNames|, |c.outputNames|, Tail(s));
      if tc.Fail? then Cases(c, st, s) == Fail(tc.error)
      else
        var t := Run(c, st.(inputs := tc.value.0), Logic);
        Cases(c, st, s) == After([Case(tc.value.0, tc.value.1, t.outputs)], Cases(c, t, tc.value.2))
  {
  }

  lemma TotalAppend(done: seq<Case>, ran: seq<Case>)
    requires |ran| <= 1 && (ran != [] ==> |ran[0].actual| == |ran[0].desired|)
    ensures TotalErrors(done + ran) ==
      TotalErrors(done) + if ran == [] then 0 else Mismatches(ran[0].actual, ran[0].desired)
  {
    if ran == [] {
      assert done + ran == done;
    } else {
      assert (done + ran)[..|done|] == done;
    }
  }

  lemma AfterNothing(r: Result<(seq<Case>, State)>)
    ensures After([], r) == r
  {
    if r.Ok? {
      assert [] + r.value.0 == r.value.0;
    }
  }

  // ---------------------------------------------------------------- the test run

  /** runTestCase on the test file `source`: the number of errors over all test
      cases, and the cells as the last simulation left them. */
  method RunTestCase(c: Circuit, source: seq<Raw>) returns (r: Result<nat>)
    requires WellFormed(c) && Disjoint(c) && Settled(c, StateOf(c)) && Supported(source)
    modifies Cells(c)
    ensures Agrees(r, Cases(c, old(StateOf(c)), Tokenize(source)))
    ensures r.Ok? ==> r.value == TotalErrors(Cases(c, old(StateOf(c)), Tokenize(source)).value.0)
    ensures r.Ok? ==> StateOf(c) == Cases(c, old(StateOf(c)), Tokenize(source)).value.1
  {
    var lexer := new Lexer(source);
    var desired := new int[c.outputs.Length];
    CellsAllocated(c);
    r := RunCases(c, lexer, desired);
  }

  /** The loop over the commands of the test file. */
  method RunCases(c: Circuit, lexer: Lexer, desired: array<int>) returns (r: Result<nat>)
    requires WellFormed(c) && Disjoint(c) && Settled(c, StateOf(c)) && lexer.Valid()
    requires desired.Length == |c.outputNames| && desired !in Cells(c)
    modifies Cells(c), lexer, desired
    ensures Agrees(r, Cases(c, old(StateOf(c)), old(lexer.Remaining())))
    ensures r.Ok? ==> r.value == TotalErrors(Cases(c, old(StateOf(c)), old(lexer.Remaining())).value.0)
    ensures r.Ok? ==> StateOf(c) == Cases(c, old(StateOf(c)), old(lexer.Remaining())).value.1
  {
    ghost var st0, s0 := StateOf(c), lexer.Remaining();
    ghost var done: seq<Case> := [];
    AfterNothing(Cases(c, st0, s0));
    var total := 0;
    while true
      invariant lexer.Valid() && Settled(c, StateOf(c))
      invariant Cases(c, st0, s0) == After(done, Cases(c, StateOf(c), lexer.Remaining()))
      invariant total == TotalErrors(done)
      decreases |lexer.Remaining().tokens|
    {
      ghost var ran: seq<Case>;
      var errors;
      errors, ran := NextCommand(c, lexer, desired);
      if errors.Fail? {
        return Fail(errors.error);
      }
      if errors.value.None? {
        break;
      }
      AfterAfter(done, ran, Cases(c, StateOf(c), lexer.Remaining()));
      TotalAppend(done, ran);
      done := done + ran;
      total := total + errors.value.value;
    }
    assert done + [] == done;
    r := Ok(total);
  }

  /** One pass of the command loop of runTestCase: None at the end of the file,
      otherwise the errors of the test case run (none for a closing brace); the
      cases run come back as a ghost. */
  method NextCommand(c: Circuit, lexer: Lexer, desired: array<int>)
    returns (r: Result<Option<nat>>, ghost ran: seq<Case>)
    requires WellFormed(c) && Disjoint(c) && Settled(c, StateOf(c)) && lexer.Valid()
    requires desired.Length == |c.outputNames| && desired !in Cells(c)
    modifies Cells(c), lexer, desired
    ensures r.Fail? ==> Agrees(r, Cases(c, old(StateOf(c)), old(lexer.Remaining())))
    ensures r == Ok(None) ==>
      Cases(c, old(StateOf(c)), old(lexer.Remaining())) == Ok(([], StateOf(c))) &&
      StateOf(c) == old(StateOf(c))
    ensures r.Ok? && r.value.Some? ==>
      lexer.Valid() && Settled(c, StateOf(c)) &&
      |lexer.Remaining().tokens| < |old(lexer.Remaining()).tokens| &&
      Cases(c, old(StateOf(c)), old(lexer.Remaining())) == After(ran, Cases(c, StateOf(c), lexer.Remaining())) &&
      |ran| <= 1 && (ran == [] ==> r.value.value == 0) &&
      (ran != [] ==> |ran[0].actual| == |ran[0].desired| && r.value.value == Mismatches(ran[0].actual, ran[0].desired))
  {
    ghost var st, s := StateOf(c), lexer.Remaining();
    ran := [];
    var token := lexer.GetToken();
    if token.Fail? {
      return Fail(token.error), [];
    }
    if token.value.None? {
      CellsAllocated(c);
      return Ok(None), [];
    }
    CellsAllocated(c);
    assert StateOf(c) == st && token.value.value == s.tokens[0] && lexer.Remaining() == Tail(s);
    r, ran := Dispatch(c, lexer, desired, token.value.value, s);
  }

  /** The command `token` of the test file, read from s. */
  method Dispatch(c: Circuit, lexer: Lexer, desired: array<int>, token: string, ghost s: Stream)
    returns (r: Result<Option<nat>>, ghost ran: seq<Case>)
    requires WellFormed(c) && Disjoint(c) && Settled(c, StateOf(c)) && lexer.Valid()
    requires desired.Length == |c.outputNames| && desired !in Cells(c)
    requires s.tokens != [] && s.tokens[0] == token && lexer.Remaining() == Tail(s)
    modifies Cells(c), lexer, desired
    ensures r.Fail? ==> Agrees(r, Cases(c, old(StateOf(c)), s))
    ensures r.Ok? ==> r.value.Some?
    ensures r.Ok? ==>
      lexer.Valid() && Settled(c, StateOf(c)) &&
      |lexer.Remaining().tokens| < |s.tokens| &&
      Cases(c, old(StateOf(c)), s) == After(ran, Cases(c, StateOf(c), lexer.Remaining())) &&
      |ran| <= 1 && (ran == [] ==> r.value.value == 0) &&
      (ran != [] ==> |ran[0].actual| == |ran[0].desired| && r.value.value == Mismatches(ran[0].actual, ran[0].desired))
  {
    ran := [];
    if token == "testCase" {
      var errors;
      errors, ran := CaseCommand(c, lexer, desired, s);
      r := if errors.Fail? then Fail(errors.error) else Ok(Some(errors.value));
    } else if token == "}" {
      AfterNothing(Cases(c, StateOf(c), lexer.Remaining()));
      r := Ok(Some(0));
    } else {
      r := Fail(UnknownTestCommand(token));
    }
  }

  /** A testCase command, after its keyword, with the case it ran. */
  method CaseCommand(c: Circuit, lexer: Lexer, desired: array<int>, ghost s: Stream)
    returns (r: Result<nat>, ghost ran: seq<Case>)
    requires WellFormed(c) && Disjoint(c) && Settled(c, StateOf(c)) && lexer.Valid()
    requires desired.Length == |c.outputNames| && desired !in Cells(c)
    requires s.tokens != [] && s.tokens[0] == "testCase" && lexer.Remaining() == Tail(s)
    modifies Cells(c), lexer, desired
    ensures r.Fail? ==> Agrees(r, Cases(c, old(StateOf(c)), s))
    ensures r.Ok? ==>
      lexer.Valid() && Settled(c, StateOf(c)) && |lexer.Remaining().tokens| < |s.tokens| &&
      Cases(c, old(StateOf(c)), s) == After(ran, Cases(c, StateOf(c), lexer.Remaining())) &&
      |ran| == 1 && |ran[0].actual| == |ran[0].desired| && r.value == Mismatches(ran[0].actual, ran[0].desired)
  {
    CaseStep(c, StateOf(c), s);
    ghost var tc := TestCase(|c.inputNames|, |c.outputNames|, lexer.Remaining());
    r := RunCase(c, lexer, desired);
    ran := if r.Ok? then [Case(tc.value.0, tc.value.1, StateOf(c).outputs)] else [];
  }

  /** One test case, after its keyword: read the inputs into the circuit's input
      cells and the desired outputs into `desired`, simulate, count the errors. */
  method RunCase(c: Circuit, lexer: Lexer, desired: array<int>) returns (r: Result<nat>)
    requires WellFormed(c) && Disjoint(c) && Settled(c, StateOf(c)) && lexer.Valid()
    requires desired.Length == |c.outputNames| && desired !in Cells(c)
    modifies Cells(c), lexer, desired
    ensures Agrees(r, TestCase(|c.inputNames|, |c.outputNames|, old(lexer.Remaining())))
    ensures r.Ok? ==>
      var tc := TestCase(|c.inputNames|, |c.outputNames|, old(lexer.Remaining())).value;
      lexer.Valid() && lexer.Remaining() == tc.2 &&
      StateOf(c) == Run(c, old(StateOf(c)).(inputs := tc.0), Logic) &&
      r.value == Mismatches(StateOf(c).outputs, tc.1)
  {
    var read := ReadInputs(c, lexer, desired);
    if read.Fail? {
      return Fail(read.error);
    }
    SettledBelow(c, old(StateOf(c)), StateOf(c));
    Simulate(c);
    ChildStates(c);
    var errors := CountErrors(c.outputs, desired);
    r := Ok(errors);
    CellsAllocated(c);
  }

  /** The reading part of a test case, as it changes the cells of c. */
  method ReadInputs(c: Circuit, lexer: Lexer, desired: array<int>) returns (r: Result<()>)
    requires WellFormed(c) && Disjoint(c) && lexer.Valid()
    requires desired.Length == |c.outputNames| && desired !in Cells(c)
    modifies lexer, c.inputs, desired
    ensures Agrees(r, TestCase(|c.inputNames|, |c.outputNames|, old(lexer.Remaining())))
    ensures r.Ok? ==>
      var tc := TestCase(|c.inputNames|, |c.outputNames|, old(lexer.Remaining())).value;
      lexer.Valid() && lexer.Remaining() == tc.2 && desired[..] == tc.1 &&
      StateOf(c) == old(StateOf(c)).(inputs := tc.0)
  {
    ChildStates(c);
    r := ReadCase(c.inputs, lexer, desired);
    if r.Ok? {
      OwnChanged(c);
    }
  }

  /** The two token loops of a test case, and the check that both arrays are full. */
  method ReadCase(inputs: array<int>, lexer: Lexer, desired: array<int>) returns (r: Result<()>)
    requires lexer.Valid() && inputs != desired
    modifies lexer, inputs, desired
    ensures Agrees(r, TestCase(inputs.Length, desired.Length, old(lexer.Remaining())))
    ensures r.Ok? ==>
      var tc := TestCase(inputs.Length, desired.Length, old(lexer.Remaining())).value;
      lexer.Valid() && lexer.Remaining() == tc.2 && inputs[..] == tc.0 && desired[..] == tc.1
  {
    var inCount := ReadCells(lexer, inputs);
    if inCount.Fail? {
      return Fail(inCount.error);
    }
    var outCount := ReadCells(lexer, desired);
    if outCount.Fail? {
      return Fail(outCount.error);
    }
    if inCount.value != inputs.Length || outCount.value != desired.Length {
      return Fail(IncompleteTestCase);
    }
    assert inputs[..inCount.value] == inputs[..] && desired[..outCount.value] == desired[..];
    r := Ok(());
  }

  /** The token loop that fills an array of bits: whole tokens until the array
      is full or the file ends; how many cells were filled. */
  method ReadCells(lexer: Lexer, cells: array<int>) returns (r: Result<nat>)
    requires lexer.Valid()
    modifies lexer, cells
    ensures Agrees(r, ReadBits(cells.Length, [], old(lexer.Remaining())))
    ensures r.Ok? ==>
      var read := ReadBits(cells.Length, [], old(lexer.Remaining())).value;
      r.value == |read.0| && cells[..r.value] == read.0 &&
      lexer.Valid() && lexer.Remaining() == read.1
  {
    ghost var s0 := lexer.Remaining();
    var count: nat := 0;
    assert cells[..count] == [];
    while count < cells.Length
      invariant count <= cells.Length && lexer.Valid()
      invariant ReadBits(cells.Length, [], s0) == ReadBits(cells.Length, cells[..count], lexer.Remaining())
      decreases |lexer.Remaining().tokens|
    {
      var token := lexer.GetToken();
      if token.Fail? {
        return Fail(token.error);
      }
      if token.value.None? {
        break;
      }
      var next := ScanBits(token.value.value, cells, count);
      if next.Fail? {
        return Fail(next.error);
      }
      count := next.value;
    }
    r := Ok(count);
  }

  /** The character loop over one token: each '0' or '1' goes into the next cell. */
  method ScanBits(t: string, cells: array<int>, start: nat) returns (r: Result<nat>)
    requires start <= cells.Length
    modifies cells
    ensures r.Fail? <==> start + |BitsOf(t)| > cells.Length
    ensures r.Fail? ==> r.error == TooManyBits
    ensures r.Ok? ==> r.value == start + |BitsOf(t)| && cells[..r.value] == old(cells[..start]) + BitsOf(t)
  {
    var count := start;
    var i := 0;
    while i < |t|
      invariant i <= |t| && count == start + |BitsOf(t[..i])| <= cells.Length
      invariant cells[..count] == old(cells[..start]) + BitsOf(t[..i])
    {
      assert t[..i + 1][..i] == t[..i];
      if t[i] == '0' || t[i] == '1' {
        if count == cells.Length {
          assert t[..i + 1] + t[i + 1..] == t;
          BitsOfAppend(t[..i + 1], t[i + 1..]);
          return Fail(TooManyBits);
        }
        cells[count] := t[i] as int - '0' as int;
        count := count + 1;
      }
      i := i + 1;
    }
    assert t[..i] == t;
    r := Ok(count);
  }

  /** `if (outputs[i] != desiredOutputs[i]) numErrors++` over all outputs. */
  method CountErrors(actual: array<int>, desired: array<int>) returns (n: nat)
    requires actual.Length == desired.Length
    ensures n == Mismatches(actual[..], desired[..])
  {
    n := 0;
    var i := 0;
    while i < actual.Length
      invariant i <= actual.Length && n == Mismatches(actual[..i], desired[..i])
    {
      assert actual[..i + 1][..i] == actual[..i] && desired[..i + 1][..i] == desired[..i];
      if actual[i] != desired[i] {
        n := n + 1;
      }
      i := i + 1;
    }
    assert actual[..i] == actual[..] && desired[..i] == desired[..];
  }
}
