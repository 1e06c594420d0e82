/** simulate, gatherInputs and simulatePropagationDelay over the cell arrays of a
    circuit tree, each proved to leave the cells as Run says. */
module Simulator {
  import opened Bits
  import opened JavaLang
  import opened Circuits

  /** Every cell of a circuit that existed before existed with all its cells. */
  twostate lemma {:induction false} CellsAllocated(c: Circuit)
    ensures forall a :: a in Cells(c) ==> old(allocated(a))
    decreases c
  {
    assert old(allocated(c.inputs)) && old(allocated(c.outputs));
    ChildrenCellsFrom(c, |c.internalCircuits|);
    forall k | 0 <= k < |c.internalCircuits|
      ensures forall a :: a in Cells(c.internalCircuits[k]) ==> old(allocated(a))
    {
      assert old(allocated(c.internalCircuits[k]));
      CellsAllocated(c.internalCircuits[k]);
    }
  }

  /** When nothing but the cells of child k of c changed, the state of c differs
      from the old one in child k alone.  (The circuit and the child's index come
      as one pair: this Dafny version's solver fails on two-state lemmas of two
      parameters when contradictory assumptions are checked.) */
  twostate lemma ChildChanged(ck: (Circuit, int))
    requires WellFormed(ck.0) && Disjoint(ck.0) && 0 <= ck.1 < |ck.0.internalCircuits|
    requires forall a :: a in Cells(ck.0) - Cells(ck.0.internalCircuits[ck.1]) ==>
      old(allocated(a)) ==> unchanged(a)
    ensures StateOf(ck.0) ==
      old(StateOf(ck.0)).(internal := old(StateOf(ck.0)).internal[ck.1 := StateOf(ck.0.internalCircuits[ck.1])])
  {
    var (c, k) := ck;
    CellsAllocated(c);
    ChildCells(c);
    var n := |c.internalCircuits|;
    forall j | 0 <= j < n && j != k
      ensures StateOf(c.internalCircuits[j]) == old(StateOf(c.internalCircuits[j]))
    {
      assert Cells(c.internalCircuits[j]) <= Cells(c) - Cells(c.internalCircuits[k]);
    }
    assert c.inputs in Cells(c) - Cells(c.internalCircuits[k]);
    assert c.outputs in Cells(c) - Cells(c.internalCircuits[k]);
    var s0, s1 := old(StateOf(c)), StateOf(c);
    assert s1.internal == s0.internal[k := StateOf(c.internalCircuits[k])];
  }

  /** When nothing but the own cells of c changed, only its own cells differ. */
  twostate lemma OwnChanged(c: Circuit)
    requires WellFormed(c) && Disjoint(c)
    requires forall a :: a in Cells(c) - {c.inputs, c.outputs} ==> old(allocated(a)) ==> unchanged(a)
    ensures StateOf(c) == old(StateOf(c)).(inputs := c.inputs[..], outputs := c.outputs[..])
  {
    CellsAllocated(c);
    ChildCells(c);
    var n := |c.internalCircuits|;
    forall j | 0 <= j < n
      ensures StateOf(c.internalCircuits[j]) == old(StateOf(c.internalCircuits[j]))
    {
      assert Cells(c.internalCircuits[j]) <= Cells(c) - {c.inputs, c.outputs};
    }
    var s0, s1 := old(StateOf(c)), StateOf(c);
    assert s1.internal == s0.internal;
  }

  /** The value of the cell a slot points at. */
  method ReadCell(c: Circuit, b: Slot) returns (v: int)
    requires WellFormed(c) && ValidSlot(c, b)
    ensures b.InputSlot? ==> v == c.inputs[b.index]
    ensures b.OutputSlot? ==>
      b.index < c.internalCircuits[b.child].outputs.Length &&
      v == c.internalCircuits[b.child].outputs[b.index]
  {
    match b
    case InputSlot(i) =>
      v := c.inputs[i];
    case OutputSlot(j, i) =>
      assert WellFormed(c.internalCircuits[j]);
      v := c.internalCircuits[j].outputs[i];
  }

  /** The truth-table branch of simulate: the row number packs the inputs, and
      output i is bit i of the row's word. */
  method SimulateTable(c: Circuit)
    requires WellFormed(c) && c.truthTable.Some? && c.inputs != c.outputs
    requires AllBits(c.inputs[..])
    modifies c.outputs
    ensures c.outputs[..] == TableOutputs(c, c.inputs[..])
  {
    var row: nat := 0;
    var i := 0;
    while i < c.inputs.Length
      invariant 0 <= i <= c.inputs.Length
      invariant AllBits(c.inputs[..i]) && row == Pack(c.inputs[..i])
    {
      assert c.inputs[..i + 1] == c.inputs[..i] + [c.inputs[i]];
      // row |= inputs[i] << i
      if c.inputs[i] == 1 {
        SetBitSnoc(c.inputs[..i]);
        row := SetBit(row, i);
      } else {
        PackSnoc(c.inputs[..i], 0);
      }
      i := i + 1;
    }
    assert c.inputs[..i] == c.inputs[..];
    var out := c.truthTable.value[row];
    i := 0;
    while i < c.outputs.Length
      invariant 0 <= i <= c.outputs.Length
      invariant forall j :: 0 <= j < i ==> c.outputs[j] == ShiftBit(out, j) as int
    {
      // outputs[i] = (out >> i) & 0x1
      c.outputs[i] := ShiftBit(out, i);
      i := i + 1;
    }
  }

  /** The last loop of simulate and simulatePropagationDelay: each output
      copies its bound cell. */
  method CopyOutputs(c: Circuit)
    requires WellFormed(c) && Disjoint(c) && OutputsWired(c)
    modifies c.outputs
    ensures c.outputs[..] == BoundOutputs(c, old(StateOf(c)))
  {
    ghost var s0 := StateOf(c);
    ghost var target := BoundOutputs(c, s0);
    ChildStates(c);
    assert s0.inputs == c.inputs[..];
    assert forall j :: 0 <= j < |c.internalCircuits| ==>
      s0.internal[j].outputs == c.internalCircuits[j].outputs[..];
    assert forall j :: 0 <= j < |c.internalCircuits| ==>
      c.internalCircuits[j].outputs in Cells(c.internalCircuits[j]);
    var i := 0;
    while i < c.outputs.Length
      invariant 0 <= i <= c.outputs.Length
      invariant forall j :: 0 <= j < i ==> c.outputs[j] == target[j]
    {
      var v := ReadCell(c, c.outputBindings[i].value);
      c.outputs[i] := v;
      i := i + 1;
    }
  }

  /** The cells a slot of c can point at. */
  ghost function SourceCells(c: Circuit): set<array<int>>
  {
    {c.inputs} + set j | 0 <= j < |c.internalCircuits| :: c.internalCircuits[j].outputs
  }

  /** The cells a slot of c can point at hold what its state says, and the inputs
      of a child are none of them. */
  lemma SourcesOfState(c: Circuit)
    requires WellFormed(c) && Disjoint(c)
    ensures Sources(c, StateOf(c))
    ensures forall k :: 0 <= k < |c.internalCircuits| ==>
      c.internalCircuits[k].inputs !in SourceCells(c) &&
      StateOf(c).internal[k].inputs == c.internalCircuits[k].inputs[..]
  {
    ChildStates(c);
    forall k | 0 <= k < |c.internalCircuits|
      ensures c.internalCircuits[k].inputs !in SourceCells(c)
    {
      var d := c.internalCircuits[k];
      assert d.inputs in Cells(d) && Disjoint(d);
      forall j | 0 <= j < |c.internalCircuits|
        ensures c.internalCircuits[j].outputs != d.inputs
      {
        assert c.internalCircuits[j].outputs in Cells(c.internalCircuits[j]);
      }
    }
  }

  /** The cells a slot of c can point at hold what s says. */
  ghost predicate Sources(c: Circuit, s: State)
    requires Fits(c, s)
    reads SourceCells(c)
  {
    c.inputs[..] == s.inputs &&
    forall j :: 0 <= j < |c.internalCircuits| ==>
      c.internalCircuits[j].outputs[..] == s.internal[j].outputs
  }

  /** One iteration of gatherInputs: input i of child k reads its source cell,
      if it has one. */
  method GatherOne(c: Circuit, k: int, i: int, ghost s: State)
    requires WellFormed(c) && Fits(c, s) && 0 <= k < |c.internalCircuits|
    requires 0 <= i < |c.internalCircuits[k].inputBindings| == c.internalCircuits[k].inputs.Length
    requires Sources(c, s) && c.internalCircuits[k].inputs !in SourceCells(c)
    modifies c.internalCircuits[k].inputs
    ensures var d := c.internalCircuits[k];
      d.inputBindings[i].Some? ==> d.inputs[i] == Read(c, d.inputBindings[i].value, s)
    ensures var d := c.internalCircuits[k];
      forall j :: 0 <= j < d.inputs.Length && (j != i || d.inputBindings[i].None?) ==>
        d.inputs[j] == old(d.inputs[j])
  {
    var d := c.internalCircuits[k];
    assert WellFormed(d) && ChildWired(c, k);
    if d.inputBindings[i].Some? {
      var b := d.inputBindings[i].value;
      var v := ReadCell(c, b);
      if b.OutputSlot? {
        assert c.internalCircuits[b.child].outputs[b.index] == s.internal[b.child].outputs[b.index];
      }
      d.inputs[i] := v;
    }
  }

  /** gatherInputs: every bound input of child k takes the value of the cell it
      is wired to; unbound ones keep their constants. */
  method GatherInputs(c: Circuit, k: int)
    requires WellFormed(c) && Disjoint(c) && 0 <= k < |c.internalCircuits|
    modifies c.internalCircuits[k].inputs
    ensures c.internalCircuits[k].inputs[..] == Gathered(c, k, old(StateOf(c)))
  {
    var d := c.internalCircuits[k];
    ghost var s0 := StateOf(c);
    ghost var target := Gathered(c, k, s0);
    SourcesOfState(c);
    assert WellFormed(d);
    var i := 0;
    while i < d.inputs.Length
      invariant 0 <= i <= d.inputs.Length
      invariant Sources(c, s0)
      invariant forall j :: 0 <= j < i ==> d.inputs[j] == target[j]
      invariant forall j :: i <= j < d.inputs.Length ==> d.inputs[j] == s0.internal[k].inputs[j]
    {
      GatherOne(c, k, i, s0);
      i := i + 1;
    }
  }

  /** simulate: the cells of c afterwards are as Run in mode Logic says. */
  method Simulate(c: Circuit)
    requires WellFormed(c) && Disjoint(c) && Ready(c, StateOf(c), Logic)
    modifies Cells(c)
    ensures StateOf(c) == Run(c, old(StateOf(c)), Logic)
    decreases c, 1
  {
    if c.truthTable.Some? {
      ChildStates(c);
      SimulateTable(c);
      OwnChanged(c);
    } else {
      RunChildren(c, Logic);
    }
  }

  /** simulatePropagationDelay: the cells of c afterwards are as Run in mode
      Delay says. */
  method SimulatePropagationDelay(c: Circuit)
    requires WellFormed(c) && Disjoint(c)
    modifies Cells(c)
    ensures StateOf(c) == Run(c, old(StateOf(c)), Delay)
    decreases c, 1
  {
    if |c.internalCircuits| == 0 {
      ChildStates(c);
      DelayLeaf(c);
      OwnChanged(c);
    } else {
      RunChildren(c, Delay);
    }
  }

  /** The else-branch shared by simulate and simulatePropagationDelay: run the
      children in order, then copy the outputs. */
  method RunChildren(c: Circuit, mode: Mode)
    requires WellFormed(c) && Disjoint(c) && StepReady(c, StateOf(c), 0, mode)
    requires mode == Delay ==> |c.internalCircuits| > 0
    modifies Cells(c)
    ensures StateOf(c) == Run(c, old(StateOf(c)), mode)
    decreases c, 0, 2
  {
    RunAll(c, mode);
    FinishOutputs(c);
  }

  /** Steps where it is defined, and the starting state elsewhere: a form of Steps
      without preconditions, for the loop over the children. */
  ghost function Reached(c: Circuit, s0: State, k: int, mode: Mode): State
  {
    if WellFormed(c) && Fits(c, s0) && 0 <= k <= |c.internalCircuits| && StepReady(c, s0, 0, mode)
    then Steps(c, s0, k, mode)
    else s0
  }

  /** The loop over the children. */
  method RunAll(c: Circuit, mode: Mode)
    requires WellFormed(c) && Disjoint(c) && StepReady(c, StateOf(c), 0, mode)
    modifies Cells(c)
    ensures StateOf(c) == Reached(c, old(StateOf(c)), |c.internalCircuits|, mode)
    decreases c, 0, 1
  {
    ghost var s0 := StateOf(c);
    var k := 0;
    while k < |c.internalCircuits|
      invariant 0 <= k <= |c.internalCircuits|
      invariant StateOf(c) == Reached(c, s0, k, mode)
    {
      NextChild(c, k, mode, s0);
      k := k + 1;
    }
  }

  /** One iteration of that loop: children 0 .. k-1 have run, and now child k runs. */
  method NextChild(c: Circuit, k: int, mode: Mode, ghost s0: State)
    requires WellFormed(c) && Disjoint(c) && 0 <= k < |c.internalCircuits|
    requires Fits(c, s0) && StepReady(c, s0, 0, mode)
    requires StateOf(c) == Reached(c, s0, k, mode)
    modifies Cells(c)
    ensures StateOf(c) == Reached(c, s0, k + 1, mode)
    decreases c, 0, 0, 1
  {
    ChildCells(c);
    RunChild(c, k, mode);
  }

  /** The output loop of the else-branch, seen from the whole tree. */
  method FinishOutputs(c: Circuit)
    requires WellFormed(c) && Disjoint(c) && OutputsWired(c)
    modifies c.outputs
    ensures StateOf(c) == old(StateOf(c)).(outputs := BoundOutputs(c, old(StateOf(c))))
  {
    ChildStates(c);
    CopyOutputs(c);
    OwnChanged(c);
  }

  /** gatherInputs and then simulate (or simulatePropagationDelay) of child k. */
  method RunChild(c: Circuit, k: int, mode: Mode)
    requires WellFormed(c) && Disjoint(c) && 0 <= k < |c.internalCircuits|
    requires StepReady(c, StateOf(c), k, mode)
    modifies Cells(c.internalCircuits[k])
    ensures StateOf(c) == Step(c, old(StateOf(c)), k, mode)
    decreases c, 0, 0, 0
  {
    var d := c.internalCircuits[k];
    assert d.inputs in Cells(d);
    ChildStates(c);
    GatheredBits(c, StateOf(c), k, mode);
    GatherChild(c, k);
    RunOne(d, mode);
    ChildChanged((c, k));
  }

  /** simulate or simulatePropagationDelay, as the mode says. */
  method RunOne(d: Circuit, mode: Mode)
    requires WellFormed(d) && Disjoint(d) && Ready(d, StateOf(d), mode)
    modifies Cells(d)
    ensures StateOf(d) == Run(d, old(StateOf(d)), mode)
    decreases d, 3
  {
    if mode == Logic {
      Simulate(d);
    } else {
      SimulatePropagationDelay(d);
    }
  }

  /** gatherInputs of child k, seen from the child's whole tree. */
  method GatherChild(c: Circuit, k: int)
    requires WellFormed(c) && Disjoint(c) && 0 <= k < |c.internalCircuits|
    modifies c.internalCircuits[k].inputs
    ensures WellFormed(c.internalCircuits[k])
    ensures StateOf(c.internalCircuits[k]) ==
      old(StateOf(c)).internal[k].(inputs := Gathered(c, k, old(StateOf(c))))
    ensures Disjoint(c.internalCircuits[k])
  {
    var d := c.internalCircuits[k];
    ghost var s0 := StateOf(c);
    ChildStates(c);
    assert WellFormed(d) && Disjoint(d);
    GatherInputs(c, k);
    OwnChanged(d);
  }

  /** The first branch of simulatePropagationDelay: every output is its own
      delay (1 without a table) plus the largest input delay. */
  method DelayLeaf(c: Circuit)
    requires WellFormed(c) && c.inputs != c.outputs
    modifies c.outputs
    ensures c.outputs[..] == DelayOutputs(c, c.inputs[..])
  {
    var maxInputProp := 0;
    var i := 0;
    while i < c.inputs.Length
      invariant 0 <= i <= c.inputs.Length
      invariant maxInputProp == MaxInput(c.inputs[..i])
    {
      assert c.inputs[..i + 1][..i] == c.inputs[..i];
      if c.inputs[i] > maxInputProp {
        maxInputProp := c.inputs[i];
      }
      i := i + 1;
    }
    assert c.inputs[..i] == c.inputs[..];
    i := 0;
    while i < c.outputs.Length
      invariant 0 <= i <= c.outputs.Length
      invariant forall j :: 0 <= j < i ==> c.outputs[j] == DelayOutputs(c, c.inputs[..])[j]
    {
      if c.propagationDelay.Some? {
        c.outputs[i] := c.propagationDelay.value[i] + maxInputProp;
      } else {
        c.outputs[i] := 1 + maxInputProp;
      }
      i := i + 1;
    }
  }
}
