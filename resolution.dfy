/** getArrayAndIndex: what a name written in a circuit file refers to, seen from
    the circuit being loaded.  An input name of that circuit wins; otherwise the
    first sub-circuit the name designates (by its own name, or by its name and a
    dot) supplies one of its outputs: its only one, the one named after the first
    dot, or the one whose number follows the dot. */
module Resolution {
  import opened JavaLang
  import opened Errors
  import opened Circuits

  /** What a name is resolved against: the input names of the circuit being
      loaded and the sub-circuits it holds so far. */
  datatype Scope = Scope(inputNames: seq<string>, children: seq<Circuit>)

  /** Slot b points at a cell in scope: an input, or an output of a sub-circuit. */
  predicate InScope(sc: Scope, b: Slot) {
    match b
    case InputSlot(i) => 0 <= i < |sc.inputNames|
    case OutputSlot(j, i) => 0 <= j < |sc.children| && 0 <= i < |sc.children[j].outputNames|
  }

  /** What follows the first dot of str, when the dot is not its first character. */
  function Suffix(str: string): (r: Option<string>)
    ensures r.Some? ==> exists dot :: 0 < dot < |str| && str[dot] == '.' && r.value == str[dot + 1..]
  {
    var dot := IndexOf(str, '.');
    if dot > 0 then Some(str[dot + 1..]) else None
  }

  /** The sub-circuit d is the one str speaks of. */
  predicate Designates(d: Circuit, str: string) {
    str == d.name || StartsWith(str, d.name + ".")
  }

  /** The first of children[j..] that str designates; |children| when none does. */
  function FirstMatch(children: seq<Circuit>, str: string, j: nat): (k: nat)
    requires j <= |children|
    ensures j <= k <= |children|
    ensures k < |children| ==> Designates(children[k], str)
    ensures forall i :: j <= i < k ==> !Designates(children[i], str)
    decreases |children| - j
  {
    if j == |children| || Designates(children[j], str) then j
    else FirstMatch(children, str, j + 1)
  }

  /** A position with no match before it and a match (or the end) at it is the first match. */
  lemma {:induction false} FirstMatchAt(children: seq<Circuit>, str: string, j: nat, k: nat)
    requires j <= k <= |children|
    requires forall i :: j <= i < k ==> !Designates(children[i], str)
    requires k < |children| ==> Designates(children[k], str)
    ensures FirstMatch(children, str, j) == k
    decreases k - j
  {
    if j < k {
      FirstMatchAt(children, str, j + 1, k);
    }
  }

  /** getArrayAndIndex as the source has it: a number after the dot is taken as an
      output index without comparing it with the outputs the sub-circuit has, and
      a sub-circuit without outputs still gives index 0.  `Ok(None)` is `false`. */
  function ResolveAsWritten(c: Scope, str: string): Result<Option<Slot>>
  {
    var index := IndexOf(c.inputNames, str);
    if index >= 0 then Ok(Some(InputSlot(index)))
    else
      var j := FirstMatch(c.children, str, 0);
      if j == |c.children| then Ok(None)
      else
        var d := c.children[j];
        match Suffix(str)
        case None =>
          if |d.outputNames| > 1 then Fail(UnqualifiedOutput(str)) else Ok(Some(OutputSlot(j, 0)))
        case Some(sfx) =>
          var i := IndexOf(d.outputNames, sfx);
          if i >= 0 then Ok(Some(OutputSlot(j, i)))
          else match ParseInt(sfx)
            case Some(v) => Ok(Some(OutputSlot(j, v)))
            case None => Ok(None)
  }

  /** getArrayAndIndex with the bounds check it lacks: a name that would point past
      the outputs of the sub-circuit is not found. */
  function Resolve(c: Scope, str: string): (r: Result<Option<Slot>>)
    ensures r.Ok? && r.value.Some? ==> InScope(c, r.value.value)
    ensures r != ResolveAsWritten(c, str) ==>
      r == Ok(None) && ResolveAsWritten(c, str).Ok? && ResolveAsWritten(c, str).value.Some? &&
      !InScope(c, ResolveAsWritten(c, str).value.value)
  {
    var r := ResolveAsWritten(c, str);
    if r.Ok? && r.value.Some? && !InScope(c, r.value.value) then Ok(None) else r
  }

  /** Inputs come first: str resolves to input i exactly when input i is the first
      input named str. */
  lemma ResolveInput(c: Scope, str: string, i: int)
    ensures Resolve(c, str) == Ok(Some(InputSlot(i))) <==>
      0 <= i < |c.inputNames| && c.inputNames[i] == str && str !in c.inputNames[..i]
  {
    if 0 <= i < |c.inputNames| && c.inputNames[i] == str && str !in c.inputNames[..i] {
      assert IndexOf(c.inputNames, str) == i;
    }
  }

  /** str resolves to output i of sub-circuit j only when str names no input, the
      j-th sub-circuit is the first str designates, and i is its only output, the
      first output named by the suffix, or the number the suffix spells. */
  lemma ResolveOutput(c: Scope, str: string, j: int, i: int)
    requires Resolve(c, str) == Ok(Some(OutputSlot(j, i)))
    ensures str !in c.inputNames
    ensures 0 <= j < |c.children| && Designates(c.children[j], str)
    ensures forall k :: 0 <= k < j ==> !Designates(c.children[k], str)
    ensures 0 <= i < |c.children[j].outputNames|
    ensures var outs := c.children[j].outputNames;
      match Suffix(str)
      case None => |outs| == 1 && i == 0
      case Some(sfx) =>
        (outs[i] == sfx && sfx !in outs[..i]) || (sfx !in outs && ParseInt(sfx) == Some(i))
  {
    var outs := c.children[j].outputNames;
    if Suffix(str).Some? && IndexOf(outs, Suffix(str).value) >= 0 {
      assert IndexOf(outs, Suffix(str).value) == i;
    }
  }

  /** A qualified name "d.y" reaches output y of the first sub-circuit it designates. */
  lemma ResolveNamedOutput(c: Scope, str: string, j: int, i: int)
    requires str !in c.inputNames
    requires 0 <= j < |c.children| && Designates(c.children[j], str)
    requires forall k :: 0 <= k < j ==> !Designates(c.children[k], str)
    requires 0 <= i < |c.children[j].outputNames|
    requires Suffix(str) == Some(c.children[j].outputNames[i])
    requires c.children[j].outputNames[i] !in c.children[j].outputNames[..i]
    ensures Resolve(c, str) == Ok(Some(OutputSlot(j, i)))
  {
    FirstMatchAt(c.children, str, 0, j);
    assert IndexOf(c.children[j].outputNames, Suffix(str).value) == i;
  }

  /** A scope with the input a and a sub-circuit g with the single output y. */
  function Sample(cells: array<int>): Scope {
    Scope(["a"], [Circuit("NOT", "g", ["x"], ["y"], true, Some([1, 0]), [], [None], cells, [None], cells, None)])
  }

  /** The unchecked index: "g.5" resolves, as written, to output 5 of g, which has
      one output; with the bounds check it is not found. */
  lemma UncheckedIndex(cells: array<int>)
    ensures ResolveAsWritten(Sample(cells), "g.5") == Ok(Some(OutputSlot(0, 5)))
    ensures !InScope(Sample(cells), OutputSlot(0, 5))
    ensures Resolve(Sample(cells), "g.5") == Ok(None)
  {
    var c := Sample(cells);
    var str := "g.5";
    assert IndexOf(c.inputNames, str) == -1;
    assert Designates(c.children[0], str) by {
      assert str[..|"g."|] == "g.";
    }
    assert FirstMatch(c.children, str, 0) == 0;
    assert IndexOf(str, '.') == 1 by {
      assert str[1] == '.' && '.' !in str[..1];
    }
    assert Suffix(str) == Some("5");
    assert IndexOf(c.children[0].outputNames, "5") == -1;
    assert ParseInt("5") == Some(5) by {
      assert AllDigits("5");
      assert DigitsValue("5") == 5;
    }
  }
}
