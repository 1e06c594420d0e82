/** The circuit tree and its simulation: Circuit.java's simulate, gatherInputs and
    simulatePropagationDelay.  A loaded circuit is a value whose mutable parts are
    its two cell arrays, `inputs` and `outputs`; everything else (names, wiring,
    truth table, children) is fixed once loading is over.  The wiring of a cell
    (inputArrays[i] and inputArrayIndices[i] in the source, which alias an array
    of another instance) is a Slot: a handle relative to the circuit that owns the
    wiring. */
module Circuits {
  import opened Bits
  import opened JavaLang

  /** Where a bound cell reads from, relative to the circuit that did the wiring
      (the parent, for a child's inputs; the circuit itself, for its outputs):
      input cell `index` of that circuit, or output cell `index` of its child
      number `child`. */
  datatype Slot = InputSlot(index: int) | OutputSlot(child: int, index: int)

  datatype Circuit = Circuit(
    circuitType: string,
    name: string,
    inputNames: seq<string>,
    outputNames: seq<string>,
    isCombinatorial: bool,
    truthTable: Option<seq<nat>>,            // row number -> 32-bit pattern of the outputs
    internalCircuits: seq<Circuit>,
    inputBindings: seq<Option<Slot>>,        // set by the parent; None: a constant cell
    inputs: array<int>,
    outputBindings: seq<Option<Slot>>,
    outputs: array<int>,
    propagationDelay: Option<seq<int>>)

  /** The contents of all cells of a circuit tree. */
  datatype State = State(inputs: seq<int>, outputs: seq<int>, internal: seq<State>)

  /** simulate (logic values) or simulatePropagationDelay (delays riding the same cells). */
  datatype Mode = Logic | Delay

  /** The row number Σ inputs[i] << i of a truth-table circuit stays a
      nonnegative `int` up to this many inputs. */
  const MaxRowInputs := 30

  predicate ValidSlot(c: Circuit, b: Slot) {
    match b
    case InputSlot(i) => 0 <= i < |c.inputNames|
    case OutputSlot(j, i) =>
      0 <= j < |c.internalCircuits| && 0 <= i < |c.internalCircuits[j].outputNames|
  }

  /** Every binding c makes for the inputs of its child k points at a cell. */
  predicate ChildWired(c: Circuit, k: int)
    requires 0 <= k < |c.internalCircuits|
  {
    var d := c.internalCircuits[k];
    forall i :: 0 <= i < |d.inputBindings| ==>
      (d.inputBindings[i].Some? ==> ValidSlot(c, d.inputBindings[i].value))
  }

  /** Every output of c is bound to a cell. */
  predicate OutputsWired(c: Circuit) {
    forall i :: 0 <= i < |c.outputBindings| ==>
      c.outputBindings[i].Some? && ValidSlot(c, c.outputBindings[i].value)
  }

  /** What simulating c needs of its shape: cell arrays sized by the name lists,
      a truth table of 2^n rows, bound outputs wherever simulation copies them,
      a delay per output, and slots that point at existing cells. */
  predicate WellFormed(c: Circuit)
    decreases c
  {
    c.inputs.Length == |c.inputNames| == |c.inputBindings| &&
    c.outputs.Length == |c.outputNames| == |c.outputBindings| &&
    (c.truthTable.Some? ==>
      |c.inputNames| <= MaxRowInputs && |c.truthTable.value| == Pow2(|c.inputNames|)) &&
    (c.truthTable.None? || |c.internalCircuits| > 0 ==> OutputsWired(c)) &&
    (c.propagationDelay.Some? ==> |c.propagationDelay.value| == |c.outputNames|) &&
    forall k :: 0 <= k < |c.internalCircuits| ==>
      WellFormed(c.internalCircuits[k]) && ChildWired(c, k)
  }

  /** s has one cell value per cell of c. */
  predicate Fits(c: Circuit, s: State)
    decreases c
  {
    |s.inputs| == |c.inputNames| && |s.outputs| == |c.outputNames| &&
    |s.internal| == |c.internalCircuits| &&
    forall k :: 0 <= k < |s.internal| ==> Fits(c.internalCircuits[k], s.internal[k])
  }

  /** Every cell holds 0 or 1. */
  predicate Binary(s: State) {
    AllBits(s.inputs) && AllBits(s.outputs) &&
    forall k :: 0 <= k < |s.internal| ==> Binary(s.internal[k])
  }

  /** The cells a logic run of c reads before it writes them hold 0 or 1.  A
      circuit with a truth table reads only its own inputs, which its caller
      sets.  A circuit that simulates its children reads, for every child, the
      unbound inputs and the outputs of the child itself or of a later sibling
      that the child's inputs are bound to (those still hold what the last run
      left), and the same cells inside every child. */
  predicate Settled(c: Circuit, s: State)
    decreases c
  {
    c.truthTable.Some? ||
    forall k :: 0 <= k < |c.internalCircuits| && k < |s.internal| ==>
      Settled(c.internalCircuits[k], s.internal[k]) && FirstReads(c, s, k)
  }

  /** The cells child k reads that no step before it has written hold 0 or 1. */
  predicate FirstReads(c: Circuit, s: State, k: int)
    requires 0 <= k < |c.internalCircuits| && k < |s.internal|
  {
    var d := c.internalCircuits[k];
    forall i :: 0 <= i < |d.inputBindings| ==>
      match d.inputBindings[i]
      case None => i < |s.internal[k].inputs| ==> IsBit(s.internal[k].inputs[i])
      case Some(b) =>
        b.OutputSlot? && k <= b.child < |s.internal| && 0 <= b.index < |s.internal[b.child].outputs| ==>
          IsBit(s.internal[b.child].outputs[b.index])
  }

  /** Children 0 .. k-1 have run: their outputs hold 0 or 1. */
  predicate Ran(s: State, k: int) {
    forall j :: 0 <= j < k && j < |s.internal| ==> AllBits(s.internal[j].outputs)
  }

  /** What a run in the given mode needs of the cells: in logic mode, 0 or 1 in
      the inputs and in every cell read before it is written; a delay run takes
      any values. */
  predicate Ready(c: Circuit, s: State, mode: Mode) {
    mode == Delay || (AllBits(s.inputs) && Settled(c, s))
  }

  /** What running child k needs: in logic mode, c simulates its children, the
      run is ready and children 0 .. k-1 have run. */
  predicate StepReady(c: Circuit, s: State, k: int, mode: Mode) {
    mode == Delay || (c.truthTable.None? && AllBits(s.inputs) && Settled(c, s) && Ran(s, k))
  }

  /** Only the cells below c decide whether c is settled. */
  lemma SettledBelow(c: Circuit, s: State, t: State)
    requires s.internal == t.internal && Settled(c, s)
    ensures Settled(c, t)
  {
  }

  /** Cells that are all 0 or 1 are settled. */
  lemma {:induction false} BinarySettled(c: Circuit, s: State)
    requires Fits(c, s) && Binary(s)
    ensures Settled(c, s)
    decreases c
  {
    if c.truthTable.None? {
      forall k | 0 <= k < |c.internalCircuits| && k < |s.internal|
        ensures Settled(c.internalCircuits[k], s.internal[k]) && FirstReads(c, s, k)
      {
        BinarySettled(c.internalCircuits[k], s.internal[k]);
      }
    }
  }

  /** The cell a slot points at. */
  function Read(c: Circuit, b: Slot, s: State): (v: int)
    requires Fits(c, s) && ValidSlot(c, b)
  {
    match b
    case InputSlot(i) => s.inputs[i]
    case OutputSlot(j, i) =>
      assert Fits(c.internalCircuits[j], s.internal[j]);
      s.internal[j].outputs[i]
  }

  /** gatherInputs of child k: each bound input takes the value of its source
      cell, an unbound one keeps its value. */
  function Gathered(c: Circuit, k: int, s: State): (g: seq<int>)
    requires WellFormed(c) && Fits(c, s) && 0 <= k < |c.internalCircuits|
    ensures |g| == |c.internalCircuits[k].inputNames|
  {
    var d := c.internalCircuits[k];
    assert Fits(d, s.internal[k]) && ChildWired(c, k) && WellFormed(d);
    seq(|d.inputNames|, i requires 0 <= i < |d.inputNames| =>
      if d.inputBindings[i].Some? then Read(c, d.inputBindings[i].value, s)
      else s.internal[k].inputs[i])
  }

  /** Child k gathers 0 or 1 into every input when it is its turn in a logic run,
      and it is then ready to run. */
  lemma GatheredBits(c: Circuit, s: State, k: int, mode: Mode)
    requires WellFormed(c) && Fits(c, s) && 0 <= k < |c.internalCircuits|
    requires StepReady(c, s, k, mode)
    ensures mode == Logic ==> AllBits(Gathered(c, k, s))
    ensures Ready(c.internalCircuits[k], s.internal[k].(inputs := Gathered(c, k, s)), mode)
  {
    if mode == Delay {
      return;
    }
    var d := c.internalCircuits[k];
    var g := Gathered(c, k, s);
    assert Fits(d, s.internal[k]) && ChildWired(c, k) && FirstReads(c, s, k);
    forall i | 0 <= i < |g| ensures IsBit(g[i]) {
      if d.inputBindings[i].Some? && d.inputBindings[i].value.OutputSlot? {
        var b := d.inputBindings[i].value;
        assert Fits(c.internalCircuits[b.child], s.internal[b.child]);
        if b.child < k {
          assert AllBits(s.internal[b.child].outputs);
        }
      }
    }
    SettledBelow(d, s.internal[k], s.internal[k].(inputs := g));
  }

  /** The cells the outputs of a composite circuit are copied from. */
  function BoundOutputs(c: Circuit, s: State): (o: seq<int>)
    requires WellFormed(c) && OutputsWired(c) && Fits(c, s)
    ensures |o| == |c.outputNames|
  {
    seq(|c.outputNames|, i requires 0 <= i < |c.outputNames| =>
      Read(c, c.outputBindings[i].value, s))
  }

  /** Once every child has run, the outputs copied hold 0 or 1 when the inputs
      do, and the circuit is settled as it was. */
  lemma RunSettles(c: Circuit, t: State, r: State, mode: Mode)
    requires WellFormed(c) && OutputsWired(c) && Fits(c, t) && r == t.(outputs := BoundOutputs(c, t))
    requires StepReady(c, t, |c.internalCircuits|, mode)
    ensures mode == Logic ==> AllBits(r.outputs) && Settled(c, r)
  {
    if mode == Logic {
      BoundBits(c, t);
      SettledBelow(c, t, r);
    }
  }

  /** Once every child has run, the outputs copied hold 0 or 1 when the inputs do. */
  lemma BoundBits(c: Circuit, s: State)
    requires WellFormed(c) && OutputsWired(c) && Fits(c, s)
    requires AllBits(s.inputs) && Ran(s, |c.internalCircuits|)
    ensures AllBits(BoundOutputs(c, s))
  {
    forall i | 0 <= i < |c.outputNames| ensures IsBit(BoundOutputs(c, s)[i]) {
      var b := c.outputBindings[i].value;
      if b.OutputSlot? {
        assert AllBits(s.internal[b.child].outputs);
      }
    }
  }

  /** The outputs a truth-table lookup produces: bit i of the row's word. */
  function TableOutputs(c: Circuit, ins: seq<int>): (o: seq<int>)
    requires WellFormed(c) && c.truthTable.Some? && |ins| == |c.inputNames| && AllBits(ins)
    ensures |o| == |c.outputNames| && AllBits(o)
  {
    var out := c.truthTable.value[Pack(ins)];
    seq(|c.outputNames|, i requires 0 <= i < |c.outputNames| => ShiftBit(out, i) as int)
  }

  /** maxInputProp: the largest input, and 0 if none is larger. */
  function MaxInput(ins: seq<int>): int
  {
    if ins == [] then 0
    else
      var m := MaxInput(ins[..|ins| - 1]);
      if ins[|ins| - 1] > m then ins[|ins| - 1] else m
  }

  /** maxInputProp is at least 0 and at least every input, and it is 0 or one of
      the inputs. */
  lemma {:induction false} MaxInputIsMax(ins: seq<int>)
    ensures MaxInput(ins) >= 0
    ensures forall i :: 0 <= i < |ins| ==> ins[i] <= MaxInput(ins)
    ensures MaxInput(ins) == 0 || MaxInput(ins) in ins
  {
    if ins != [] {
      var init := ins[..|ins| - 1];
      MaxInputIsMax(init);
      assert forall i :: 0 <= i < |init| ==> ins[i] == init[i];
      assert MaxInput(init) in init ==> MaxInput(init) in ins;
    }
  }

  /** The delays a circuit without children gives its outputs. */
  function DelayOutputs(c: Circuit, ins: seq<int>): (o: seq<int>)
    requires WellFormed(c)
    ensures |o| == |c.outputNames|
  {
    seq(|c.outputNames|, i requires 0 <= i < |c.outputNames| =>
      (if c.propagationDelay.Some? then c.propagationDelay.value[i] else 1) + MaxInput(ins))
  }

  /** One call of simulate (mode Logic) or simulatePropagationDelay (mode Delay):
      the new contents of every cell of c, given their contents s before. */
  function Run(c: Circuit, s: State, mode: Mode): (r: State)
    requires WellFormed(c) && Fits(c, s) && Ready(c, s, mode)
    ensures Fits(c, r) && r.inputs == s.inputs
    ensures mode == Logic ==> AllBits(r.outputs) && Settled(c, r)
    decreases c, 2
  {
    if mode == Logic && c.truthTable.Some? then
      s.(outputs := TableOutputs(c, s.inputs))
    else if mode == Delay && |c.internalCircuits| == 0 then
      s.(outputs := DelayOutputs(c, s.inputs))
    else
      var t := Steps(c, s, |c.internalCircuits|, mode);
      var r := t.(outputs := BoundOutputs(c, t));
      RunSettles(c, t, r, mode);
      r
  }

  /** The cells after the children 0 .. k-1 have each gathered their inputs and
      been run, in order. */
  function Steps(c: Circuit, s: State, k: int, mode: Mode): (r: State)
    requires WellFormed(c) && Fits(c, s) && 0 <= k <= |c.internalCircuits|
    requires StepReady(c, s, 0, mode)
    ensures Fits(c, r) && r.inputs == s.inputs && r.outputs == s.outputs
    ensures StepReady(c, r, k, mode)
    decreases c, 1, k
  {
    if k == 0 then s else Step(c, Steps(c, s, k - 1, mode), k - 1, mode)
  }

  /** Child k gathers its inputs and is run; nothing outside it changes. */
  function Step(c: Circuit, s: State, k: int, mode: Mode): (r: State)
    requires WellFormed(c) && Fits(c, s) && 0 <= k < |c.internalCircuits|
    requires StepReady(c, s, k, mode)
    ensures Fits(c, r) && r.inputs == s.inputs && r.outputs == s.outputs
    ensures |r.internal| == |s.internal|
    ensures forall j :: 0 <= j < |s.internal| && j != k ==> r.internal[j] == s.internal[j]
    ensures StepReady(c, r, k + 1, mode)
    decreases c, 0
  {
    var d := c.internalCircuits[k];
    assert Fits(d, s.internal[k]) && WellFormed(d);
    GatheredBits(c, s, k, mode);
    var before := s.internal[k].(inputs := Gathered(c, k, s));
    var after := Run(d, before, mode);
    StepSettles(c, s, k, after, mode);
    s.(internal := s.internal[k := after])
  }

  /** Child k has run in a logic run: its inputs are what it gathered, its
      outputs are 0 or 1 and it is settled.  Then c is settled afterwards and
      children 0 .. k have run. */
  lemma StepSettles(c: Circuit, s: State, k: int, after: State, mode: Mode)
    requires WellFormed(c) && Fits(c, s) && 0 <= k < |c.internalCircuits|
    requires StepReady(c, s, k, mode)
    requires Fits(c.internalCircuits[k], after) && after.inputs == Gathered(c, k, s)
    requires mode == Logic ==> AllBits(after.outputs) && Settled(c.internalCircuits[k], after)
    ensures StepReady(c, s.(internal := s.internal[k := after]), k + 1, mode)
  {
    if mode == Delay {
      return;
    }
    var r := s.(internal := s.internal[k := after]);
    forall m | 0 <= m < |c.internalCircuits| && m < |r.internal|
      ensures Settled(c.internalCircuits[m], r.internal[m]) && FirstReads(c, r, m)
    {
      assert FirstReads(c, s, m) && Settled(c.internalCircuits[m], s.internal[m]);
      FirstReadsKept(c, s, k, after, m);
      if m != k {
        assert r.internal[m] == s.internal[m];
      }
    }
    forall j | 0 <= j < k + 1 && j < |r.internal| ensures AllBits(r.internal[j].outputs) {
      if j < k {
        assert r.internal[j] == s.internal[j];
      }
    }
  }

  /** Child m still reads 0 or 1 first once child k has run and left 0 or 1 in its
      outputs. */
  lemma FirstReadsKept(c: Circuit, s: State, k: int, after: State, m: int)
    requires WellFormed(c) && Fits(c, s) && 0 <= k < |c.internalCircuits| && 0 <= m < |c.internalCircuits|
    requires Fits(c.internalCircuits[k], after) && after.inputs == Gathered(c, k, s)
    requires FirstReads(c, s, m) && AllBits(after.outputs)
    ensures FirstReads(c, s.(internal := s.internal[k := after]), m)
  {
    var r := s.(internal := s.internal[k := after]);
    var d := c.internalCircuits[m];
    forall i | 0 <= i < |d.inputBindings| && d.inputBindings[i].None? && i < |r.internal[m].inputs|
      ensures IsBit(r.internal[m].inputs[i])
    {
      if m == k {
        assert Fits(d, s.internal[k]);
        assert r.internal[m].inputs[i] == s.internal[k].inputs[i];
      }
    }
  }

  /** A logic run from cells that all hold 0 or 1 leaves them all 0 or 1. */
  lemma {:induction false} RunBinary(c: Circuit, s: State)
    requires WellFormed(c) && Fits(c, s) && AllBits(s.inputs) && Binary(s)
    ensures Ready(c, s, Logic) && Binary(Run(c, s, Logic))
    decreases c, 1
  {
    BinarySettled(c, s);
    if c.truthTable.None? {
      StepsBinary(c, s, |c.internalCircuits|);
    }
  }

  /** The same for the children 0 .. k-1 of a circuit that simulates them. */
  lemma {:induction false} StepsBinary(c: Circuit, s: State, k: int)
    requires WellFormed(c) && Fits(c, s) && c.truthTable.None? && 0 <= k <= |c.internalCircuits|
    requires Binary(s)
    ensures StepReady(c, s, 0, Logic) && Binary(Steps(c, s, k, Logic))
    decreases c, 0, k
  {
    BinarySettled(c, s);
    if k > 0 {
      StepsBinary(c, s, k - 1);
      var t := Steps(c, s, k - 1, Logic);
      var d := c.internalCircuits[k - 1];
      assert Fits(d, t.internal[k - 1]) && WellFormed(d) && Binary(t.internal[k - 1]);
      GatheredBits(c, t, k - 1, Logic);
      var before := t.internal[k - 1].(inputs := Gathered(c, k - 1, t));
      RunBinary(d, before);
      assert Step(c, t, k - 1, Logic).internal[k - 1] == Run(d, before, Logic);
    }
  }

  /** All cell arrays of the tree. */
  ghost function Cells(c: Circuit): set<array<int>>
    decreases c, 1
  {
    {c.inputs, c.outputs} + ChildrenCells(c, |c.internalCircuits|)
  }

  /** The cell arrays of the trees of children 0 .. i-1. */
  ghost function ChildrenCells(c: Circuit, i: int): set<array<int>>
    requires 0 <= i <= |c.internalCircuits|
    decreases c, 0, i
  {
    if i == 0 then {} else ChildrenCells(c, i - 1) + Cells(c.internalCircuits[i - 1])
  }

  /** No two cells of the tree share an array: each instance allocates its own. */
  ghost predicate Disjoint(c: Circuit)
    decreases c
  {
    c.inputs != c.outputs &&
    (forall k :: 0 <= k < |c.internalCircuits| ==>
      c.inputs !in Cells(c.internalCircuits[k]) && c.outputs !in Cells(c.internalCircuits[k]) &&
      Disjoint(c.internalCircuits[k])) &&
    (forall j, k :: 0 <= j < k < |c.internalCircuits| ==>
      Cells(c.internalCircuits[j]) !! Cells(c.internalCircuits[k]))
  }

  /** The contents of the cells of c. */
  ghost function StateOf(c: Circuit): (s: State)
    reads Cells(c)
    ensures WellFormed(c) ==> Fits(c, s)
    decreases c
  {
    ChildCells(c);
    State(c.inputs[..], c.outputs[..],
      seq(|c.internalCircuits|, k requires 0 <= k < |c.internalCircuits|
        reads if 0 <= k < |c.internalCircuits| then Cells(c.internalCircuits[k]) else {} =>
        StateOf(c.internalCircuits[k])))
  }

  /** The state of c holds its own cells and the states of its children. */
  lemma ChildStates(c: Circuit)
    requires WellFormed(c)
    ensures StateOf(c).inputs == c.inputs[..] && StateOf(c).outputs == c.outputs[..]
    ensures forall j :: 0 <= j < |c.internalCircuits| ==>
      WellFormed(c.internalCircuits[j]) && StateOf(c).internal[j] == StateOf(c.internalCircuits[j])
  {
  }

  /** The cells of a child are cells of its parent. */
  lemma ChildCells(c: Circuit)
    ensures forall k :: 0 <= k < |c.internalCircuits| ==> Cells(c.internalCircuits[k]) <= Cells(c)
  {
    ChildrenCellsHold(c, |c.internalCircuits|);
  }

  lemma {:induction false} ChildrenCellsHold(c: Circuit, i: int)
    requires 0 <= i <= |c.internalCircuits|
    ensures forall k :: 0 <= k < i ==> Cells(c.internalCircuits[k]) <= ChildrenCells(c, i)
    decreases i
  {
    if i > 0 {
      ChildrenCellsHold(c, i - 1);
    }
  }

  /** A cell of the children's trees is a cell of one child's tree. */
  lemma {:induction false} ChildrenCellsFrom(c: Circuit, i: int)
    requires 0 <= i <= |c.internalCircuits|
    ensures forall a :: a in ChildrenCells(c, i) ==>
      exists k :: 0 <= k < i && a in Cells(c.internalCircuits[k])
    decreases i
  {
    if i > 0 {
      ChildrenCellsFrom(c, i - 1);
    }
  }

  /** Giving a circuit a truth table changes none of its cells. */
  lemma Retabled(c: Circuit, tt: Option<seq<nat>>)
    ensures Cells(c.(truthTable := tt)) == Cells(c)
    ensures Disjoint(c.(truthTable := tt)) == Disjoint(c)
    ensures StateOf(c.(truthTable := tt)) == StateOf(c)
  {
    SameChildrenCells(c, c.(truthTable := tt), |c.internalCircuits|);
  }

  lemma {:induction false} SameChildrenCells(c: Circuit, e: Circuit, i: int)
    requires c.internalCircuits == e.internalCircuits && 0 <= i <= |c.internalCircuits|
    ensures ChildrenCells(c, i) == ChildrenCells(e, i)
    decreases i
  {
    if i > 0 {
      SameChildrenCells(c, e, i - 1);
    }
  }
}
