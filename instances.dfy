/** A fresh instance of a circuit definition.  Loading a sub-circuit in the source
    (`c = new Circuit(); c.loadFromFile(subType)`) builds a new tree of instances
    with cell arrays of its own every time; loading is deterministic, so that tree
    is a copy of what any earlier load of the same type built.  The model keeps
    each definition once, as a circuit shape and the cell contents its load left
    behind, and instantiates it by allocating new arrays. */
module Instances {
  import opened Circuits

  /** c has the shape of p (everything but the cell arrays), all the way down. */
  predicate Copy(c: Circuit, p: Circuit)
    decreases p
  {
    c == p.(inputs := c.inputs, outputs := c.outputs, internalCircuits := c.internalCircuits) &&
    c.inputs.Length == p.inputs.Length && c.outputs.Length == p.outputs.Length &&
    |c.internalCircuits| == |p.internalCircuits| &&
    forall k :: 0 <= k < |p.internalCircuits| ==> Copy(c.internalCircuits[k], p.internalCircuits[k])
  }

  /** A copy of a well-formed circuit is well formed: wiring and sizes are shape. */
  lemma {:induction false} CopyWellFormed(c: Circuit, p: Circuit)
    requires Copy(c, p) && WellFormed(p)
    ensures WellFormed(c)
    decreases p
  {
    forall k | 0 <= k < |c.internalCircuits|
      ensures WellFormed(c.internalCircuits[k]) && ChildWired(c, k)
    {
      CopyWellFormed(c.internalCircuits[k], p.internalCircuits[k]);
      assert ChildWired(p, k);
    }
    if c.truthTable.None? || |c.internalCircuits| > 0 {
      assert OutputsWired(p);
    }
  }

  /** Every cell of a circuit at hand is allocated. */
  lemma {:induction false} CellsExist(c: Circuit)
    ensures forall a :: a in Cells(c) ==> allocated(a)
    decreases c
  {
    ChildrenCellsFrom(c, |c.internalCircuits|);
    forall k | 0 <= k < |c.internalCircuits|
      ensures forall a :: a in Cells(c.internalCircuits[k]) ==> allocated(a)
    {
      CellsExist(c.internalCircuits[k]);
    }
  }

  /** A new array holding the given contents. */
  method NewCells(contents: seq<int>) returns (a: array<int>)
    ensures fresh(a) && a[..] == contents
  {
    a := new int[|contents|];
    var i := 0;
    while i < |contents|
      invariant 0 <= i <= |contents|
      invariant a[..i] == contents[..i]
    {
      a[i] := contents[i];
      i := i + 1;
    }
  }

  /** A new instance of the definition (p, s): the shape of p, cells that are
      all newly allocated and that hold s. */
  method Instantiate(p: Circuit, s: State) returns (c: Circuit)
    requires WellFormed(p) && Fits(p, s)
    ensures Copy(c, p) && WellFormed(c) && Disjoint(c)
    ensures StateOf(c) == s
    ensures forall a :: a in Cells(c) ==> fresh(a)
    decreases p, 2
  {
    var kids := InstantiateChildren(p, s);
    c := Assemble(p, s, kids);
    FreshTree(c);
  }

  /** New instances of the children of (p, s), one after the other. */
  method InstantiateChildren(p: Circuit, s: State) returns (kids: seq<Circuit>)
    requires WellFormed(p) && Fits(p, s)
    ensures |kids| == |p.internalCircuits|
    ensures forall j :: 0 <= j < |kids| ==> InstanceOf(kids[j], p.internalCircuits[j], s.internal[j])
    ensures forall j :: 0 <= j < |kids| ==> forall a :: a in Cells(kids[j]) ==> fresh(a)
    ensures forall i, j :: 0 <= i < j < |kids| ==> Cells(kids[i]) !! Cells(kids[j])
    decreases p, 1
  {
    kids := [];
    while |kids| < |p.internalCircuits|
      invariant |kids| <= |p.internalCircuits|
      invariant forall j :: 0 <= j < |kids| ==> InstanceOf(kids[j], p.internalCircuits[j], s.internal[j])
      invariant forall j :: 0 <= j < |kids| ==> forall a :: a in Cells(kids[j]) ==> fresh(a)
      invariant forall i, j :: 0 <= i < j < |kids| ==> Cells(kids[i]) !! Cells(kids[j])
    {
      kids := AddInstance(p, s, kids);
    }
  }

  /** The instance of (p, s) with new own cells around the instances kids of its
      children. */
  method Assemble(p: Circuit, s: State, kids: seq<Circuit>) returns (c: Circuit)
    requires WellFormed(p) && Fits(p, s) && |kids| == |p.internalCircuits|
    requires forall j :: 0 <= j < |kids| ==> InstanceOf(kids[j], p.internalCircuits[j], s.internal[j])
    requires forall i, j :: 0 <= i < j < |kids| ==> Cells(kids[i]) !! Cells(kids[j])
    ensures Copy(c, p) && WellFormed(c) && Disjoint(c) && StateOf(c) == s
    ensures fresh(c.inputs) && fresh(c.outputs) && c.internalCircuits == kids
  {
    forall j | 0 <= j < |kids| ensures forall a :: a in Cells(kids[j]) ==> allocated(a) {
      CellsExist(kids[j]);
    }
    var ins := NewCells(s.inputs);
    var outs := NewCells(s.outputs);
    c := p.(inputs := ins, outputs := outs, internalCircuits := kids);
    AssembledShape(c, p);
    AssembledState(c, s);
  }

  /** kid is an instance of the definition (p, st). */
  ghost predicate InstanceOf(kid: Circuit, p: Circuit, st: State)
    reads Cells(kid)
  {
    Copy(kid, p) && WellFormed(kid) && Disjoint(kid) && StateOf(kid) == st
  }

  /** Instantiates child |kids| of (p, s) after the instances made so far. */
  method AddInstance(p: Circuit, s: State, kids: seq<Circuit>) returns (more: seq<Circuit>)
    requires WellFormed(p) && Fits(p, s) && |kids| < |p.internalCircuits|
    requires forall j :: 0 <= j < |kids| ==> InstanceOf(kids[j], p.internalCircuits[j], s.internal[j])
    requires forall i, j :: 0 <= i < j < |kids| ==> Cells(kids[i]) !! Cells(kids[j])
    ensures |more| == |kids| + 1 && more[..|kids|] == kids
    ensures forall j :: 0 <= j < |more| ==> InstanceOf(more[j], p.internalCircuits[j], s.internal[j])
    ensures forall a :: a in Cells(more[|kids|]) ==> fresh(a)
    ensures forall i, j :: 0 <= i < j < |more| ==> Cells(more[i]) !! Cells(more[j])
    decreases p, 0
  {
    var k := |kids|;
    forall j | 0 <= j < k ensures forall a :: a in Cells(kids[j]) ==> allocated(a) {
      CellsExist(kids[j]);
    }
    var kid := Instantiate(p.internalCircuits[k], s.internal[k]);
    more := kids + [kid];
  }

  /** A tree whose own cells and whose children's cells are new is new. */
  twostate lemma FreshTree(new c: Circuit)
    requires fresh(c.inputs) && fresh(c.outputs)
    requires forall k :: 0 <= k < |c.internalCircuits| ==>
      forall a :: a in Cells(c.internalCircuits[k]) ==> fresh(a)
    ensures forall a :: a in Cells(c) ==> fresh(a)
  {
    ChildrenCellsFrom(c, |c.internalCircuits|);
  }

  /** The instance put together from fresh parts has the shape of p. */
  lemma AssembledShape(c: Circuit, p: Circuit)
    requires WellFormed(p)
    requires c == p.(inputs := c.inputs, outputs := c.outputs, internalCircuits := c.internalCircuits)
    requires c.inputs.Length == p.inputs.Length && c.outputs.Length == p.outputs.Length
    requires |c.internalCircuits| == |p.internalCircuits|
    requires forall j :: 0 <= j < |c.internalCircuits| ==> Copy(c.internalCircuits[j], p.internalCircuits[j])
    ensures Copy(c, p) && WellFormed(c)
  {
    CopyWellFormed(c, p);
  }

  /** ... holds the contents s ... */
  lemma AssembledState(c: Circuit, s: State)
    requires WellFormed(c) && Fits(c, s)
    requires c.inputs[..] == s.inputs && c.outputs[..] == s.outputs
    requires forall j :: 0 <= j < |c.internalCircuits| ==> StateOf(c.internalCircuits[j]) == s.internal[j]
    ensures StateOf(c) == s
  {
    ChildStates(c);
    assert StateOf(c).internal == s.internal;
  }
}
