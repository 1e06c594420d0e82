/** calculateTruthTable: a circuit whose outputs depend on its inputs alone is
    simulated once per input row and the packed outputs become its truth table,
    after which simulate answers by table lookup.  The theorem of this module is
    that the lookup gives the outputs the hierarchical simulation gives. */
module Synthesis {
  import opened Bits
  import opened JavaLang
  import opened Circuits
  import opened Simulator

  /** The input bindings of child k point at the parent's inputs or at outputs of
      an earlier sibling, which are up to date by the time child k runs. */
  predicate FeedsForward(c: Circuit, k: int)
    requires 0 <= k < |c.internalCircuits|
  {
    var d := c.internalCircuits[k];
    forall i :: 0 <= i < |d.inputBindings| && d.inputBindings[i].Some? ==>
      d.inputBindings[i].value.InputSlot? || d.inputBindings[i].value.child < k
  }

  /** A circuit whose outputs follow from its inputs and its constant cells: it has
      a truth table, or all its children are combinational and wired feed-forward. */
  predicate Combinational(c: Circuit)
    decreases c
  {
    c.truthTable.Some? ||
    forall k :: 0 <= k < |c.internalCircuits| ==>
      FeedsForward(c, k) && Combinational(c.internalCircuits[k])
  }

  /** The cells below c that a run of c never writes: the unbound inputs of every
      descendant.  Bound inputs read as 0 and outputs are dropped. */
  function Frozen(c: Circuit, s: State): (f: State)
    requires Fits(c, s)
    ensures f.inputs == [] && f.outputs == [] && |f.internal| == |s.internal|
    decreases c, 1
  {
    State([], [], seq(|s.internal|, k requires 0 <= k < |s.internal| => FrozenChild(c, s, k)))
  }

  function FrozenChild(c: Circuit, s: State, k: int): State
    requires Fits(c, s) && 0 <= k < |s.internal|
    decreases c, 0
  {
    var d := c.internalCircuits[k];
    assert Fits(d, s.internal[k]);
    Frozen(d, s.internal[k]).(inputs := Masked(d, s.internal[k].inputs))
  }

  /** The input cells of d with the bound ones read as 0. */
  function Masked(d: Circuit, ins: seq<int>): (m: seq<int>)
    ensures |m| == |ins|
  {
    seq(|ins|, i requires 0 <= i < |ins| =>
      if i < |d.inputBindings| && d.inputBindings[i].Some? then 0 else ins[i])
  }

  /** Frozen looks only below c. */
  lemma FrozenBelow(c: Circuit, s: State, t: State)
    requires Fits(c, s) && Fits(c, t) && s.internal == t.internal
    ensures Frozen(c, s) == Frozen(c, t)
  {
    assert Frozen(c, s).internal == Frozen(c, t).internal;
  }

  /** A run of c leaves the frozen cells of c as they were. */
  lemma {:induction false} RunFreezes(c: Circuit, s: State, mode: Mode)
    requires WellFormed(c) && Fits(c, s) && Ready(c, s, mode)
    ensures Frozen(c, Run(c, s, mode)) == Frozen(c, s)
    decreases c, 2
  {
    var n := |c.internalCircuits|;
    if mode == Logic && c.truthTable.Some? {
      FrozenBelow(c, s, Run(c, s, mode));
    } else if mode == Delay && n == 0 {
      FrozenBelow(c, s, Run(c, s, mode));
    } else {
      StepsFreezes(c, s, n, mode);
      FrozenBelow(c, Steps(c, s, n, mode), Run(c, s, mode));
    }
  }

  lemma {:induction false} StepsFreezes(c: Circuit, s: State, k: int, mode: Mode)
    requires WellFormed(c) && Fits(c, s) && 0 <= k <= |c.internalCircuits|
    requires StepReady(c, s, 0, mode)
    ensures Frozen(c, Steps(c, s, k, mode)) == Frozen(c, s)
    decreases c, 1, k
  {
    if k > 0 {
      var a := Steps(c, s, k - 1, mode);
      StepsFreezes(c, s, k - 1, mode);
      StepFreezes(c, a, k - 1, mode);
      assert Steps(c, s, k, mode) == Step(c, a, k - 1, mode);
    }
  }

  lemma {:induction false} StepFreezes(c: Circuit, s: State, k: int, mode: Mode)
    requires WellFormed(c) && Fits(c, s) && 0 <= k < |c.internalCircuits|
    requires StepReady(c, s, k, mode)
    ensures Frozen(c, Step(c, s, k, mode)) == Frozen(c, s)
    decreases c, 0
  {
    var d := c.internalCircuits[k];
    assert Fits(d, s.internal[k]) && WellFormed(d);
    GatheredBits(c, s, k, mode);
    var g := Gathered(c, k, s);
    var before := s.internal[k].(inputs := g);
    var r := Step(c, s, k, mode);
    RunFreezes(d, before, mode);
    FrozenBelow(d, before, s.internal[k]);
    assert Masked(d, g) == Masked(d, s.internal[k].inputs);
    assert FrozenChild(c, r, k) == FrozenChild(c, s, k);
    assert Frozen(c, r).internal == Frozen(c, s).internal;
  }

  /** A combinational circuit whose frozen cells hold 0 or 1 is settled: the
      only cells it reads before writing them are its frozen ones. */
  lemma {:induction false} FrozenSettled(c: Circuit, s: State)
    requires WellFormed(c) && Combinational(c) && Fits(c, s) && Binary(Frozen(c, s))
    ensures Settled(c, s)
    decreases c
  {
    if c.truthTable.None? {
      forall k | 0 <= k < |c.internalCircuits| && k < |s.internal|
        ensures Settled(c.internalCircuits[k], s.internal[k]) && FirstReads(c, s, k)
      {
        var d := c.internalCircuits[k];
        assert Fits(d, s.internal[k]) && WellFormed(d) && FeedsForward(c, k);
        var f := FrozenChild(c, s, k);
        assert Frozen(c, s).internal[k] == f && Binary(f);
        assert Binary(Frozen(d, s.internal[k])) by {
          assert Frozen(d, s.internal[k]).internal == f.internal;
        }
        FrozenSettled(d, s.internal[k]);
        forall i | 0 <= i < |d.inputBindings| && d.inputBindings[i].None? && i < |s.internal[k].inputs|
          ensures IsBit(s.internal[k].inputs[i])
        {
          assert Masked(d, s.internal[k].inputs)[i] == s.internal[k].inputs[i];
        }
      }
    }
  }

  /** Cells that all hold 0 or 1, as loading leaves them, have frozen cells that do. */
  lemma {:induction false} BinaryFrozen(c: Circuit, s: State)
    requires Fits(c, s) && Binary(s)
    ensures Binary(Frozen(c, s))
    decreases c
  {
    forall k | 0 <= k < |s.internal| ensures Binary(Frozen(c, s).internal[k]) {
      var d := c.internalCircuits[k];
      assert Fits(d, s.internal[k]) && Binary(s.internal[k]);
      BinaryFrozen(d, s.internal[k]);
      assert Frozen(c, s).internal[k] == FrozenChild(c, s, k);
    }
  }

  /** After simulatePropagationDelay, a combinational circuit whose frozen cells
      hold 0 or 1 is settled, so it can be simulated, or run on test cases, once
      its inputs are set to 0 or 1: the delays the run left in the cells are all
      overwritten before they are read. */
  lemma DelaySettles(c: Circuit, s: State, ins: seq<int>)
    requires WellFormed(c) && Combinational(c) && Fits(c, s) && Binary(Frozen(c, s))
    requires |ins| == |c.inputNames| && AllBits(ins)
    ensures Settled(c, Run(c, s, Delay))
    ensures Ready(c, Run(c, s, Delay).(inputs := ins), Logic)
  {
    var t := Run(c, s, Delay);
    RunFreezes(c, s, Delay);
    FrozenSettled(c, t);
    SettledBelow(c, t, t.(inputs := ins));
  }

  /** Child k of a feed-forward parent gathers the same inputs from two states
      that agree on the parent's inputs, on the outputs of children 0 .. k-1 and on
      the frozen cells. */
  lemma GatheredAgrees(c: Circuit, a: State, b: State, k: int)
    requires WellFormed(c) && Fits(c, a) && Fits(c, b) && 0 <= k < |c.internalCircuits|
    requires FeedsForward(c, k) && a.inputs == b.inputs && Frozen(c, a) == Frozen(c, b)
    requires forall j :: 0 <= j < k ==> a.internal[j].outputs == b.internal[j].outputs
    ensures Gathered(c, k, a) == Gathered(c, k, b)
  {
    var d := c.internalCircuits[k];
    assert Masked(d, a.internal[k].inputs) == FrozenChild(c, a, k).inputs;
    assert Masked(d, b.internal[k].inputs) == FrozenChild(c, b, k).inputs;
    assert Frozen(c, a).internal[k] == FrozenChild(c, a, k);
    assert Frozen(c, b).internal[k] == FrozenChild(c, b, k);
    forall i | 0 <= i < |d.inputNames|
      ensures Gathered(c, k, a)[i] == Gathered(c, k, b)[i]
    {
      if d.inputBindings[i].None? {
        assert Masked(d, a.internal[k].inputs)[i] == a.internal[k].inputs[i];
        assert Masked(d, b.internal[k].inputs)[i] == b.internal[k].inputs[i];
      }
    }
  }

  /** Two states agreeing on the inputs and on the frozen cells of a combinational
      circuit give the same outputs: what the outputs of a run depend on. */
  lemma {:induction false} RunAgrees(c: Circuit, s: State, t: State)
    requires WellFormed(c) && Combinational(c) && Fits(c, s) && Fits(c, t)
    requires Ready(c, s, Logic) && Ready(c, t, Logic) && s.inputs == t.inputs && Frozen(c, s) == Frozen(c, t)
    ensures Run(c, s, Logic).outputs == Run(c, t, Logic).outputs
    decreases c, 2
  {
    if c.truthTable.None? {
      var n := |c.internalCircuits|;
      StepsAgree(c, s, t, n);
      var a := Steps(c, s, n, Logic);
      var b := Steps(c, t, n, Logic);
      forall i | 0 <= i < |c.outputNames|
        ensures BoundOutputs(c, a)[i] == BoundOutputs(c, b)[i]
      {
        var slot := c.outputBindings[i].value;
        if slot.OutputSlot? {
          assert a.internal[slot.child].outputs == b.internal[slot.child].outputs;
        }
      }
    }
  }

  lemma {:induction false} StepsAgree(c: Circuit, s: State, t: State, k: int)
    requires WellFormed(c) && c.truthTable.None? && Combinational(c)
    requires Fits(c, s) && Fits(c, t) && StepReady(c, s, 0, Logic) && StepReady(c, t, 0, Logic)
    requires s.inputs == t.inputs && Frozen(c, s) == Frozen(c, t)
    requires 0 <= k <= |c.internalCircuits|
    ensures Frozen(c, Steps(c, s, k, Logic)) == Frozen(c, Steps(c, t, k, Logic))
    ensures forall j :: 0 <= j < k ==>
      Steps(c, s, k, Logic).internal[j].outputs == Steps(c, t, k, Logic).internal[j].outputs
    decreases c, 1, k
  {
    if k > 0 {
      var a := Steps(c, s, k - 1, Logic);
      var b := Steps(c, t, k - 1, Logic);
      StepsAgree(c, s, t, k - 1);
      StepAgrees(c, a, b, k - 1);
      assert Steps(c, s, k, Logic) == Step(c, a, k - 1, Logic);
      assert Steps(c, t, k, Logic) == Step(c, b, k - 1, Logic);
    }
  }

  lemma {:induction false} StepAgrees(c: Circuit, a: State, b: State, k: int)
    requires WellFormed(c) && c.truthTable.None? && Combinational(c)
    requires Fits(c, a) && Fits(c, b) && StepReady(c, a, k, Logic) && StepReady(c, b, k, Logic)
    requires a.inputs == b.inputs && Frozen(c, a) == Frozen(c, b)
    requires 0 <= k < |c.internalCircuits|
    requires forall j :: 0 <= j < k ==> a.internal[j].outputs == b.internal[j].outputs
    ensures Frozen(c, Step(c, a, k, Logic)) == Frozen(c, Step(c, b, k, Logic))
    ensures forall j :: 0 <= j <= k ==>
      Step(c, a, k, Logic).internal[j].outputs == Step(c, b, k, Logic).internal[j].outputs
    decreases c, 0
  {
    StepFreezes(c, a, k, Logic);
    StepFreezes(c, b, k, Logic);
    var d := c.internalCircuits[k];
    assert WellFormed(d) && Combinational(d) && FeedsForward(c, k);
    assert Fits(d, a.internal[k]) && Fits(d, b.internal[k]);
    GatheredBits(c, a, k, Logic);
    GatheredBits(c, b, k, Logic);
    GatheredAgrees(c, a, b, k);
    var g := Gathered(c, k, a);
    var x := a.internal[k].(inputs := g);
    var y := b.internal[k].(inputs := g);
    assert Frozen(d, x) == Frozen(d, y) by {
      FrozenBelow(d, x, a.internal[k]);
      FrozenBelow(d, y, b.internal[k]);
      assert Frozen(c, a).internal[k] == FrozenChild(c, a, k);
      assert Frozen(c, b).internal[k] == FrozenChild(c, b, k);
      assert Frozen(d, a.internal[k]).internal == Frozen(d, b.internal[k]).internal;
    }
    RunAgrees(d, x, y);
  }

  /** MAX_TRUTH_TABLE_INPUTS and MAX_TRUTH_TABLE_OUTPUTS: the sizes up to which a
      loaded circuit is flattened. */
  const MaxTableInputs := 16
  const MaxTableOutputs := 32

  /** The cells after rows 0 .. r-1 of calculateTruthTable: row q sets input i to
      bit i of q and simulates, starting from the cells the previous row left. */
  function RowsState(c: Circuit, s: State, r: nat): (t: State)
    requires WellFormed(c) && Fits(c, s) && Settled(c, s)
    ensures Fits(c, t) && Settled(c, t)
  {
    if r == 0 then s
    else
      var p := RowsState(c, s, r - 1);
      var q := p.(inputs := Unpack(r - 1, |c.inputNames|));
      SettledBelow(c, p, q);
      Run(c, q, Logic)
  }

  /** The rows keep cells that all hold 0 or 1 so. */
  lemma {:induction false} RowsBinary(c: Circuit, s: State, r: nat)
    requires WellFormed(c) && Fits(c, s) && Binary(s)
    ensures Settled(c, s) && Binary(RowsState(c, s, r))
  {
    BinarySettled(c, s);
    if r > 0 {
      RowsBinary(c, s, r - 1);
      var p := RowsState(c, s, r - 1);
      RunBinary(c, p.(inputs := Unpack(r - 1, |c.inputNames|)));
    }
  }

  /** The word calculateTruthTable stores for row r: the packed outputs of that row. */
  function RowWord(c: Circuit, s: State, r: nat): nat
    requires WellFormed(c) && Fits(c, s) && Settled(c, s)
  {
    Pack(RowsState(c, s, r + 1).outputs)
  }

  /** The table calculateTruthTable builds from the cells s. */
  function Synthesized(c: Circuit, s: State): (tt: seq<nat>)
    requires WellFormed(c) && Fits(c, s) && Settled(c, s)
    ensures |tt| == Pow2(|c.inputNames|)
  {
    seq(Pow2(|c.inputNames|), r requires 0 <= r => RowWord(c, s, r))
  }

  /** The rows leave the frozen cells as they were. */
  lemma {:induction false} RowsFreeze(c: Circuit, s: State, r: nat)
    requires WellFormed(c) && Fits(c, s) && Settled(c, s)
    ensures Frozen(c, RowsState(c, s, r)) == Frozen(c, s)
  {
    if r > 0 {
      var p := RowsState(c, s, r - 1);
      var q := p.(inputs := Unpack(r - 1, |c.inputNames|));
      RowsFreeze(c, s, r - 1);
      FrozenBelow(c, q, p);
      SettledBelow(c, p, q);
      RunFreezes(c, q, Logic);
    }
  }

  /** Row r of the synthesized table holds the outputs a simulation gives for the
      inputs with the bits of r, from any cells with the same frozen cells. */
  lemma RowWordAgrees(c: Circuit, s: State, t: State, r: nat)
    requires WellFormed(c) && Combinational(c) && Fits(c, s) && Settled(c, s)
    requires Fits(c, t) && Ready(c, t, Logic) && Frozen(c, t) == Frozen(c, s)
    requires t.inputs == Unpack(r, |c.inputNames|)
    ensures RowWord(c, s, r) == Pack(Run(c, t, Logic).outputs)
  {
    var p := RowsState(c, s, r);
    var q := p.(inputs := Unpack(r, |c.inputNames|));
    RowsFreeze(c, s, r);
    FrozenBelow(c, q, p);
    SettledBelow(c, p, q);
    RunAgrees(c, q, t);
  }

  /** Giving a circuit a table of 2^n rows keeps it well formed. */
  lemma FlatWellFormed(c: Circuit, tt: seq<nat>)
    requires WellFormed(c) && c.truthTable.None?
    requires |c.inputNames| <= MaxRowInputs && |tt| == Pow2(|c.inputNames|)
    ensures WellFormed(c.(truthTable := Some(tt)))
  {
    var flat := c.(truthTable := Some(tt));
    forall k | 0 <= k < |c.internalCircuits| ensures ChildWired(flat, k) {
      assert ChildWired(c, k);
    }
  }

  /** The flattening theorem: with the table synthesized from any binary cells s,
      truth-table lookup gives, for every binary input row and all cells with the
      same constants as s, the outputs the hierarchical simulation gives. */
  lemma Flattening(c: Circuit, s: State, t: State)
    requires WellFormed(c) && c.truthTable.None? && Combinational(c)
    requires |c.inputNames| <= MaxTableInputs && |c.outputNames| <= MaxTableOutputs
    requires Fits(c, s) && Settled(c, s) && Fits(c, t) && Ready(c, t, Logic) && Frozen(c, t) == Frozen(c, s)
    ensures WellFormed(c.(truthTable := Some(Synthesized(c, s))))
    ensures Run(c.(truthTable := Some(Synthesized(c, s))), t, Logic).outputs == Run(c, t, Logic).outputs
  {
    var tt := Synthesized(c, s);
    FlatWellFormed(c, tt);
    SynthesizedRow(c, s, t);
    LookupPacked(c.(truthTable := Some(tt)), t.inputs, Run(c, t, Logic).outputs);
  }

  /** The synthesized row for the inputs of t packs the outputs a simulation gives
      from t. */
  lemma SynthesizedRow(c: Circuit, s: State, t: State)
    requires WellFormed(c) && Combinational(c) && |c.inputNames| <= MaxTableInputs
    requires Fits(c, s) && Settled(c, s) && Fits(c, t) && Ready(c, t, Logic) && Frozen(c, t) == Frozen(c, s)
    ensures Synthesized(c, s)[Pack(t.inputs)] == Pack(Run(c, t, Logic).outputs)
  {
    assert AllBits(t.inputs) && |t.inputs| == |c.inputNames|;
    var r := Pack(t.inputs);
    UnpackPack(t.inputs);
    RowWordAgrees(c, s, t, r);
    assert Synthesized(c, s)[r] == RowWord(c, s, r);
  }

  /** A table whose row for the inputs holds the packed cells o makes the lookup
      produce exactly o. */
  lemma LookupPacked(c: Circuit, ins: seq<int>, o: seq<int>)
    requires WellFormed(c) && c.truthTable.Some? && |ins| == |c.inputNames| && AllBits(ins)
    requires |o| == |c.outputNames| <= WordBits && AllBits(o)
    requires c.truthTable.value[Pack(ins)] == Pack(o)
    ensures TableOutputs(c, ins) == o
  {
    forall i | 0 <= i < |o| ensures TableOutputs(c, ins)[i] == o[i] {
      ShiftLow(i);
      BitOfPack(o, i);
    }
  }

  /** Input i takes bit i of row r, `inputs[i] = (r >> i) & 1`; the row has fewer
      bits than a shift distance can reach. */
  method SetRow(c: Circuit, r: nat)
    requires WellFormed(c) && Disjoint(c)
    modifies c.inputs
    ensures StateOf(c) == old(StateOf(c)).(inputs := Unpack(r, |c.inputNames|))
  {
    var i := 0;
    while i < c.inputs.Length
      invariant 0 <= i <= c.inputs.Length
      invariant forall j :: 0 <= j < i ==> c.inputs[j] == Bit(r, j)
    {
      c.inputs[i] := Bit(r, i);
      i := i + 1;
    }
    assert c.inputs[..] == Unpack(r, |c.inputNames|);
    OwnChanged(c);
  }

  /** `val |= outputs[i] << i` over the 0/1 outputs: the packed outputs. */
  method PackOutputs(c: Circuit) returns (v: nat)
    requires AllBits(c.outputs[..]) && c.outputs.Length <= WordBits
    ensures v == Pack(c.outputs[..])
  {
    v := 0;
    var i := 0;
    while i < c.outputs.Length
      invariant 0 <= i <= c.outputs.Length
      invariant AllBits(c.outputs[..i]) && v == Pack(c.outputs[..i])
    {
      assert c.outputs[..i + 1] == c.outputs[..i] + [c.outputs[i]];
      if c.outputs[i] == 1 {
        SetBitSnoc(c.outputs[..i]);
        v := SetBit(v, i);
      } else {
        PackSnoc(c.outputs[..i], 0);
      }
      i := i + 1;
    }
    assert c.outputs[..i] == c.outputs[..];
  }

  /** One row of calculateTruthTable: set the inputs, simulate, pack the outputs. */
  method RunRow(c: Circuit, r: nat) returns (v: nat)
    requires WellFormed(c) && Disjoint(c) && Settled(c, StateOf(c))
    requires |c.outputNames| <= WordBits
    modifies Cells(c)
    ensures StateOf(c) == Run(c, old(StateOf(c)).(inputs := Unpack(r, |c.inputNames|)), Logic)
    ensures v == Pack(StateOf(c).outputs)
  {
    ghost var s0 := StateOf(c);
    SetRow(c, r);
    SettledBelow(c, s0, StateOf(c));
    Simulate(c);
    ChildStates(c);
    v := PackOutputs(c);
    CellsAllocated(c);
  }

  /** RowsState and RowWord where they are defined, for loop invariants. */
  ghost function RowsReached(c: Circuit, s0: State, r: nat): State
  {
    if WellFormed(c) && Fits(c, s0) && Settled(c, s0) then RowsState(c, s0, r) else s0
  }

  ghost function WordReached(c: Circuit, s0: State, r: nat): nat
  {
    if WellFormed(c) && Fits(c, s0) && Settled(c, s0) then RowWord(c, s0, r) else 0
  }

  /** calculateTruthTable: nothing happens unless c is combinational; otherwise
      rows 0 .. 2^n-1 are simulated in turn, each from the cells the last one left,
      and the table of packed outputs is returned for the caller to install. */
  method CalculateTruthTable(c: Circuit) returns (table: Option<seq<nat>>)
    requires WellFormed(c) && Disjoint(c) && Settled(c, StateOf(c)) && c.truthTable.None?
    requires |c.inputNames| <= MaxTableInputs && |c.outputNames| <= MaxTableOutputs
    modifies Cells(c)
    ensures !Combinational(c) ==> table.None? && StateOf(c) == old(StateOf(c))
    ensures Combinational(c) ==> table == Some(Synthesized(c, old(StateOf(c))))
    ensures Combinational(c) ==>
      StateOf(c) == RowsState(c, old(StateOf(c)), Pow2(|c.inputNames|))
  {
    if !Combinational(c) {
      return None;
    }
    var tt := Tabulate(c);
    return Some(tt);
  }

  /** The row loop of calculateTruthTable. */
  method Tabulate(c: Circuit) returns (tt: seq<nat>)
    requires WellFormed(c) && Disjoint(c) && Settled(c, StateOf(c))
    requires |c.outputNames| <= WordBits
    modifies Cells(c)
    ensures tt == Synthesized(c, old(StateOf(c)))
    ensures StateOf(c) == RowsState(c, old(StateOf(c)), Pow2(|c.inputNames|))
  {
    ghost var s0 := StateOf(c);
    assert Fits(c, s0) && RowsReached(c, s0, 0) == s0;
    var numRows := Pow2(|c.inputNames|);
    // The local array TT, filled in row order, as a sequence.
    tt := [];
    var r := 0;
    while r < numRows
      invariant 0 <= r <= numRows && |tt| == r
      invariant StateOf(c) == RowsReached(c, s0, r)
      invariant forall q :: 0 <= q < r ==> tt[q] == WordReached(c, s0, q)
    {
      var v := NextRow(c, r, s0);
      assert (tt + [v])[r] == v && (tt + [v])[..r] == tt;
      tt := tt + [v];
      r := r + 1;
    }
    AllRows(c, s0, tt);
  }

  /** The words of all rows, in row order, are the synthesized table. */
  lemma AllRows(c: Circuit, s0: State, tt: seq<nat>)
    requires WellFormed(c) && Fits(c, s0) && Settled(c, s0) && |tt| == Pow2(|c.inputNames|)
    requires forall q :: 0 <= q < |tt| ==> tt[q] == WordReached(c, s0, q)
    ensures tt == Synthesized(c, s0)
  {
  }

  /** One pass of the row loop of calculateTruthTable, up to storing the word. */
  method NextRow(c: Circuit, r: nat, ghost s0: State) returns (v: nat)
    requires WellFormed(c) && Disjoint(c) && Fits(c, s0) && Settled(c, s0)
    requires |c.outputNames| <= WordBits
    requires StateOf(c) == RowsReached(c, s0, r)
    modifies Cells(c)
    ensures StateOf(c) == RowsReached(c, s0, r + 1) && v == WordReached(c, s0, r)
  {
    v := RunRow(c, r);
  }

  /** The guard of calculateTruthTable as written: only the isCombinatorial flags
      of the direct children are consulted, and a flag is false only for a circuit
      whose own file uses `...`. */
  predicate FlagsAllow(c: Circuit) {
    forall k :: 0 <= k < |c.internalCircuits| ==> c.internalCircuits[k].isCombinatorial
  }

  /** A one-input buffer whose input reads its own output: a one-bit memory.
      Every cell of these example circuits may share one array, since a run
      never looks at arrays. */
  function Buffer(a: array<int>): Circuit {
    Circuit("BUF", "g", ["x"], ["y"], true, Some([0, 1]), [],
      [Some(OutputSlot(0, 0))], a, [None], a, None)
  }

  /** Holds the buffer; its file wires the loop through `...`, so its flag is false. */
  function Latch(a: array<int>): Circuit {
    Circuit("LATCH", "l", ["x"], ["q"], false, None, [Buffer(a)],
      [Some(InputSlot(0))], a, [Some(OutputSlot(0, 0))], a, None)
  }

  /** Holds the latch without using `...` itself, so its flag stays true. */
  function Holder(a: array<int>): Circuit {
    Circuit("HOLD", "r", ["x"], ["q"], true, None, [Latch(a)],
      [Some(InputSlot(0))], a, [Some(OutputSlot(0, 0))], a, None)
  }

  /** The top circuit, the one the flags let through. */
  function Top(a: array<int>): Circuit {
    Circuit("TOP", "top", ["x"], ["q"], true, None, [Holder(a)],
      [None], a, [Some(OutputSlot(0, 0))], a, None)
  }

  /** The cells of Top, and of each circuit below it, with the remembered bit b. */
  function BufferCells(b: int): State {
    State([b], [b], [])
  }

  function LatchCells(b: int): State {
    State([0], [0], [BufferCells(b)])
  }

  function HolderCells(b: int): State {
    State([0], [0], [LatchCells(b)])
  }

  function Remembering(b: int): State {
    State([0], [0], [HolderCells(b)])
  }

  /** The example is well formed and its cells fit it. */
  lemma ExampleFits(a: array<int>, b: int)
    requires a.Length == 1 && IsBit(b)
    ensures WellFormed(Top(a)) && Fits(Top(a), Remembering(b)) && Binary(Remembering(b))
    ensures WellFormed(Latch(a)) && WellFormed(Holder(a)) && WellFormed(Buffer(a))
    ensures Ready(Top(a), Remembering(b), Logic) && Ready(Holder(a), HolderCells(b), Logic)
    ensures Ready(Latch(a), LatchCells(b), Logic) && Ready(Buffer(a), BufferCells(b), Logic)
  {
    assert WellFormed(Buffer(a)) by { assert Pow2(1) == 2; }
    assert WellFormed(Latch(a)) by { assert ChildWired(Latch(a), 0); }
    assert WellFormed(Holder(a)) by { assert ChildWired(Holder(a), 0); }
    assert WellFormed(Top(a)) by { assert ChildWired(Top(a), 0); }
    assert Fits(Buffer(a), BufferCells(b)) && Binary(BufferCells(b));
    assert Fits(Latch(a), LatchCells(b)) && Binary(LatchCells(b));
    assert Fits(Holder(a), HolderCells(b)) && Binary(HolderCells(b));
    BinarySettled(Buffer(a), BufferCells(b));
    BinarySettled(Latch(a), LatchCells(b));
    BinarySettled(Holder(a), HolderCells(b));
    BinarySettled(Top(a), Remembering(b));
  }

  /** The flag guard lets Top be flattened although its output is the remembered
      bit: two cells with the same inputs and the same constants give different
      outputs, so no truth table over the inputs agrees with simulate. */
  lemma FlagsAdmitLatch(a: array<int>)
    requires a.Length == 1
    ensures WellFormed(Top(a)) && Top(a).isCombinatorial && FlagsAllow(Top(a))
    ensures !Combinational(Top(a))
    ensures Fits(Top(a), Remembering(0)) && Fits(Top(a), Remembering(1))
    ensures Binary(Remembering(0)) && Binary(Remembering(1))
    ensures Ready(Top(a), Remembering(0), Logic) && Ready(Top(a), Remembering(1), Logic)
    ensures Remembering(0).inputs == Remembering(1).inputs
    ensures Frozen(Top(a), Remembering(0)) == Frozen(Top(a), Remembering(1))
    ensures Run(Top(a), Remembering(0), Logic).outputs == [0]
    ensures Run(Top(a), Remembering(1), Logic).outputs == [1]
  {
    ExampleFits(a, 0);
    ExampleFits(a, 1);
    var d := Latch(a).internalCircuits[0];
    assert d == Buffer(a) && |d.inputBindings| == 1;
    assert d.inputBindings[0].Some? && d.inputBindings[0].value == OutputSlot(0, 0);
    assert !FeedsForward(Latch(a), 0);
    assert !Combinational(Latch(a));
    assert !Combinational(Holder(a));
    LatchFrozen(a);
    LatchRun(a, 0);
    LatchRun(a, 1);
  }

  /** The remembered bit sits in bound cells, so it is not frozen. */
  lemma LatchFrozen(a: array<int>)
    requires a.Length == 1
    ensures Fits(Top(a), Remembering(0)) && Fits(Top(a), Remembering(1))
    ensures Frozen(Top(a), Remembering(0)) == Frozen(Top(a), Remembering(1))
  {
    ExampleFits(a, 0);
    ExampleFits(a, 1);
    assert Frozen(Buffer(a), BufferCells(0)) == Frozen(Buffer(a), BufferCells(1));
    assert Masked(Buffer(a), [0]) == Masked(Buffer(a), [1]) == [0];
    assert FrozenChild(Latch(a), LatchCells(0), 0) == FrozenChild(Latch(a), LatchCells(1), 0);
    assert Frozen(Latch(a), LatchCells(0)) == Frozen(Latch(a), LatchCells(1));
    assert FrozenChild(Holder(a), HolderCells(0), 0) == FrozenChild(Holder(a), HolderCells(1), 0);
    assert Frozen(Holder(a), HolderCells(0)) == Frozen(Holder(a), HolderCells(1));
    assert FrozenChild(Top(a), Remembering(0), 0) == FrozenChild(Top(a), Remembering(1), 0);
  }

  lemma LatchRun(a: array<int>, b: int)
    requires a.Length == 1 && IsBit(b)
    ensures WellFormed(Top(a)) && Fits(Top(a), Remembering(b)) && Ready(Top(a), Remembering(b), Logic)
    ensures Run(Top(a), Remembering(b), Logic).outputs == [b]
  {
    ExampleFits(a, b);
    HolderRun(a, b);
    var t := Remembering(b);
    assert Gathered(Top(a), 0, t) == [0];
    assert Step(Top(a), t, 0, Logic).internal[0] == Run(Holder(a), HolderCells(b), Logic);
    assert Steps(Top(a), t, 1, Logic) == Step(Top(a), t, 0, Logic);
  }

  lemma HolderRun(a: array<int>, b: int)
    requires a.Length == 1 && IsBit(b)
    ensures WellFormed(Holder(a)) && Fits(Holder(a), HolderCells(b)) && Ready(Holder(a), HolderCells(b), Logic)
    ensures Run(Holder(a), HolderCells(b), Logic).outputs == [b]
  {
    ExampleFits(a, b);
    BufferRun(a, b);
    var l := LatchCells(b);
    assert Gathered(Latch(a), 0, l) == [b];
    assert Step(Latch(a), l, 0, Logic).internal[0] == Run(Buffer(a), BufferCells(b), Logic);
    assert Steps(Latch(a), l, 1, Logic) == Step(Latch(a), l, 0, Logic);
    assert Run(Latch(a), l, Logic).outputs == [b];
    var r := HolderCells(b);
    assert Gathered(Holder(a), 0, r) == [0];
    assert Step(Holder(a), r, 0, Logic).internal[0] == Run(Latch(a), l, Logic);
    assert Steps(Holder(a), r, 1, Logic) == Step(Holder(a), r, 0, Logic);
  }

  lemma BufferRun(a: array<int>, b: int)
    requires a.Length == 1 && IsBit(b)
    ensures WellFormed(Buffer(a)) && Fits(Buffer(a), BufferCells(b)) && Ready(Buffer(a), BufferCells(b), Logic)
    ensures Run(Buffer(a), BufferCells(b), Logic).outputs == [b]
  {
    ExampleFits(a, b);
    assert Pack([b]) == b;
    assert ShiftBit(b, 0) == b;
  }
}
