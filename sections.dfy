/** What the sections of a circuit file mean, as functions of the token stream:
    the name lists of loadStringList, the sub-circuit statements of
    loadSubCircuit, the output wiring of loadOutputs and the delays of the
    `propagationDelay` section.  (The truth table is in TableText.)  Each returns
    what it read and the rest of the stream, or the error the source stops with. */
module Sections {
  import opened Bits
  import opened JavaLang
  import opened Errors
  import opened Lexer
  import opened Circuits
  import opened Resolution
  import opened TableText

  /** A circuit type's definition: its shape and what its cells hold. */
  type Definition = (Circuit, State)

  /** A sub-circuit as its user holds it: well formed, one value per cell, each 0 or 1. */
  predicate Usable(def: Definition) {
    WellFormed(def.0) && Fits(def.0, def.1) && Binary(def.1)
  }

  /** A definition as loading a file leaves it: usable, with no input bound yet. */
  predicate Loaded(def: Definition) {
    Usable(def) && forall i :: 0 <= i < |def.0.inputBindings| ==> def.0.inputBindings[i].None?
  }

  // ---------------------------------------------------------------- name lists

  /** loadStringList: tokens up to a keyword (left in the stream) or a closing
      brace (consumed), or to the end of the file. */
  function StringList(s: Stream): (r: Result<(seq<string>, Stream)>)
    ensures r.Ok? ==> |r.value.1.tokens| <= |s.tokens|
    decreases |s.tokens|
  {
    if s.tokens == [] then (if s.illegal then Fail(IllegalRepeater("")) else Ok(([], s)))
    else
      var t := s.tokens[0];
      if IsKeyword(t) then Ok(([], s))
      else if t == "}" then Ok(([], Tail(s)))
      else
        var more :- StringList(Tail(s));
        Ok(([t] + more.0, more.1))
  }

  /** l stands before what r reads. */
  function Prefixed<T>(l: seq<T>, r: Result<(seq<T>, Stream)>): Result<(seq<T>, Stream)> {
    match r
    case Ok((x, rest)) => Ok((l + x, rest))
    case Fail(e) => Fail(e)
  }

  lemma PrefixedNothing<T>(r: Result<(seq<T>, Stream)>)
    ensures Prefixed([], r) == r
  {
    if r.Ok? {
      assert [] + r.value.0 == r.value.0;
    }
  }

  lemma PrefixedTwice<T>(l: seq<T>, m: seq<T>, r: Result<(seq<T>, Stream)>)
    ensures Prefixed(l, Prefixed(m, r)) == Prefixed(l + m, r)
  {
    if r.Ok? {
      assert l + (m + r.value.0) == (l + m) + r.value.0;
    }
  }

  /** A list of names written out and closed by a brace reads back as that list. */
  lemma {:induction false} StringListWritten(names: seq<string>, more: seq<string>, illegal: bool)
    requires forall i :: 0 <= i < |names| ==> !IsKeyword(names[i]) && names[i] != "}"
    ensures StringList(Stream(names + ["}"] + more, illegal)) == Ok((names, Stream(more, illegal)))
  {
    var s := Stream(names + ["}"] + more, illegal);
    if names != [] {
      StringListWritten(names[1..], more, illegal);
      assert Tail(s).tokens == names[1..] + ["}"] + more;
      assert [names[0]] + names[1..] == names;
    }
  }

  /** What a list holds is never a keyword or a brace: it is the tokens up to the
      end, up to a keyword, or up to a brace, which is consumed. */
  lemma {:induction false} StringListStops(s: Stream)
    requires StringList(s).Ok?
    ensures var (l, rest) := StringList(s).value;
      (forall i :: 0 <= i < |l| ==> !IsKeyword(l[i]) && l[i] != "}") &&
      |rest.tokens| <= |s.tokens| - |l| && rest.illegal == s.illegal && s.tokens[..|l|] == l &&
      (rest.tokens == s.tokens[|l|..] ==> rest.tokens == [] || IsKeyword(rest.tokens[0])) &&
      (rest.tokens != s.tokens[|l|..] ==> s.tokens[|l|] == "}" && rest.tokens == s.tokens[|l| + 1..])
    decreases |s.tokens|
  {
    if s.tokens != [] && !IsKeyword(s.tokens[0]) && s.tokens[0] != "}" {
      StringListStops(Tail(s));
    }
  }

  // ------------------------------------------------------------------ drafts

  /** What the fields of a Circuit being loaded hold between two sections: the
      name lists, the flag, the truth table, the sub-circuits (each with what
      its cells hold), the output wiring and the delays, then whether the
      inputNames and outputNames sections have sized the cell arrays, and
      whether an outputs or truthTable section has been met. */
  datatype Draft = Draft(
    inputNames: seq<string>,
    outputNames: seq<string>,
    isCombinatorial: bool,
    truthTable: Option<seq<nat>>,
    children: seq<Circuit>,
    states: seq<State>,
    outputBindings: seq<Option<Slot>>,
    propagationDelay: Option<seq<int>>,
    inputsGiven: bool,
    outputsGiven: bool,
    outputsLoaded: bool)

  /** What the names of a section are resolved against. */
  function ScopeOf(d: Draft): Scope {
    Scope(d.inputNames, d.children)
  }

  /** Every binding of bs that is set points at a cell in scope sc. */
  predicate Points(sc: Scope, bs: seq<Option<Slot>>) {
    forall i :: 0 <= i < |bs| ==> bs[i].Some? ==> InScope(sc, bs[i].value)
  }

  /** Every input of sub-circuit d that is bound is bound to a cell in scope. */
  predicate Attached(sc: Scope, d: Circuit) {
    Points(sc, d.inputBindings)
  }

  // ------------------------------------------------------ sub-circuit statements

  /** The type and the name that open a `circuit` or `circuitInputs` statement. */
  function Header(s: Stream): (r: Result<((string, string), Stream)>)
    ensures r.Ok? ==> |r.value.1.tokens| < |s.tokens|
  {
    if |s.tokens| < 2 then Fail(EndError(s, UnexpectedEnd))
    else Ok(((s.tokens[0], s.tokens[1]), Stream(s.tokens[2..], s.illegal)))
  }

  /** A statement's header is its first two tokens. */
  lemma HeaderOf(subType: string, subName: string, rest: seq<string>, illegal: bool)
    ensures Header(Stream([subType, subName] + rest, illegal)) == Ok(((subType, subName), Stream(rest, illegal)))
  {
    assert ([subType, subName] + rest)[2..] == rest;
  }

  /** The first of children[j..] with the given name; |children| when there is none. */
  function FirstNamed(children: seq<Circuit>, name: string, j: nat): (k: nat)
    requires j <= |children|
    ensures j <= k <= |children|
    ensures k < |children| ==> children[k].name == name
    ensures forall i :: j <= i < k ==> children[i].name != name
    decreases |children| - j
  {
    if j == |children| || children[j].name == name then j else FirstNamed(children, name, j + 1)
  }

  /** The sub-circuit a statement speaks of: `Some(k)` for the existing sub-circuit
      k of that name (allowed for circuitInputs only), `None` for a new instance of
      a type the library defines. */
  function Target(sc: Scope, library: map<string, Definition>, inputsOnly: bool,
                  subType: string, subName: string): (r: Result<Option<nat>>)
    ensures r.Ok? && r.value.Some? ==> r.value.value < |sc.children|
    ensures r.Ok? && r.value.None? ==> subType in library
  {
    if subName in sc.inputNames then Fail(SubcircuitNamedLikeInput(subName))
    else
      var k := FirstNamed(sc.children, subName, 0);
      if k < |sc.children| then
        (if inputsOnly then Ok(Some(k)) else Fail(DuplicateSubcircuit(subName)))
      else if subType in library then Ok(None)
      else Fail(UnknownCircuitType(subType))
  }

  /** What an input of a sub-circuit is connected to: a cell, or a constant 0 or 1. */
  datatype Wire = Bound(slot: Slot) | Constant(value: int)

  /** The inputs i .. n-1 of a sub-circuit, one token each, resolved in scope sc:
      the wires read, whether `...` ended them early (marking the circuit
      sequential), and the rest of the stream. */
  function Wires(sc: Scope, subType: string, subName: string, n: nat, i: nat, s: Stream)
    : (r: Result<((seq<Wire>, bool), Stream)>)
    requires i <= n
    ensures r.Ok? ==> |r.value.0.0| <= n - i && (!r.value.0.1 ==> |r.value.0.0| == n - i)
    ensures r.Ok? ==> |r.value.1.tokens| <= |s.tokens|
    decreases n - i
  {
    if i == n then Ok((([], false), s))
    else if s.tokens == [] then Fail(EndError(s, UnexpectedEnd))
    else
      var t := s.tokens[0];
      if t == "}" then Fail(NotEnoughInputs(subType, subName))
      else if t == "..." then Ok((([], true), Tail(s)))
      else
        var b :- Resolve(sc, t);
        var w :- if b.Some? then Ok(Bound(b.value))
                 else if t == "0" || t == "1" then Ok(Constant(if t == "1" then 1 else 0))
                 else Fail(InputNotFound(t));
        var more :- Wires(sc, subType, subName, n, i + 1, Tail(s));
        Ok((([w] + more.0.0, more.0.1), more.1))
  }

  /** Every wire read is a cell in scope or a constant 0 or 1. */
  lemma {:induction false} WiresPoint(sc: Scope, subType: string, subName: string, n: nat, i: nat, s: Stream)
    requires i <= n && Wires(sc, subType, subName, n, i, s).Ok?
    ensures var ws := Wires(sc, subType, subName, n, i, s).value.0.0;
      forall q :: 0 <= q < |ws| ==>
        (ws[q].Bound? ==> InScope(sc, ws[q].slot)) && (ws[q].Constant? ==> IsBit(ws[q].value))
    decreases n - i
  {
    if i < n && s.tokens[0] != "}" && s.tokens[0] != "..." {
      WiresPoint(sc, subType, subName, n, i + 1, Tail(s));
    }
  }

  /** ws stands before the wires r reads. */
  function WiresAfter(ws: seq<Wire>, r: Result<((seq<Wire>, bool), Stream)>): Result<((seq<Wire>, bool), Stream)> {
    if r.Ok? then Ok(((ws + r.value.0.0, r.value.0.1), r.value.1)) else r
  }

  lemma WiresAfterNothing(r: Result<((seq<Wire>, bool), Stream)>)
    ensures WiresAfter([], r) == r
  {
    if r.Ok? {
      assert [] + r.value.0.0 == r.value.0.0;
    }
  }

  lemma WiresAfterTwice(ws: seq<Wire>, vs: seq<Wire>, r: Result<((seq<Wire>, bool), Stream)>)
    ensures WiresAfter(ws, WiresAfter(vs, r)) == WiresAfter(ws + vs, r)
  {
    if r.Ok? {
      assert ws + (vs + r.value.0.0) == (ws + vs) + r.value.0.0;
    }
  }

  /** Sub-circuit d with contents st once the wires are attached: a bound input
      takes its slot, a constant input its value (keeping its old binding), and
      inputs past the wires stay as they were. */
  function Wired(d: Circuit, st: State, ws: seq<Wire>): (r: Definition)
    ensures r.0 == d.(inputBindings := r.0.inputBindings) && r.1 == st.(inputs := r.1.inputs)
    ensures |r.0.inputBindings| == |d.inputBindings| && |r.1.inputs| == |st.inputs|
  {
    (d.(inputBindings := seq(|d.inputBindings|, i requires 0 <= i < |d.inputBindings| =>
        if i < |ws| && ws[i].Bound? then Some(ws[i].slot) else d.inputBindings[i])),
     st.(inputs := seq(|st.inputs|, i requires 0 <= i < |st.inputs| =>
        if i < |ws| && ws[i].Constant? then ws[i].value else st.inputs[i])))
  }

  /** Attaching wires that point at cells in scope, or are constants 0 or 1, to a
      sub-circuit whose bindings are in scope and whose cells hold 0 or 1 keeps
      both so. */
  lemma WiredInScope(sc: Scope, d: Circuit, st: State, ws: seq<Wire>)
    requires forall q :: 0 <= q < |ws| ==>
      (ws[q].Bound? ==> InScope(sc, ws[q].slot)) && (ws[q].Constant? ==> IsBit(ws[q].value))
    requires Attached(sc, d) && AllBits(st.inputs)
    ensures Attached(sc, Wired(d, st, ws).0) && AllBits(Wired(d, st, ws).1.inputs)
  {
  }

  /** The closing brace of a statement; the end of the file fails where the source
      dereferences the missing token, any other token with the given error. */
  function Closing(s: Stream, e: Error): (r: Result<((), Stream)>)
    ensures r.Ok? ==> |r.value.1.tokens| < |s.tokens|
  {
    if s.tokens == [] then Fail(EndError(s, UnexpectedEnd))
    else if s.tokens[0] != "}" then Fail(e)
    else Ok(((), Tail(s)))
  }

  /** The sub-circuits once the target is known, with what their cells hold, and
      the position of the target: a new one, named subName, comes last. */
  function Enlarged(d: Draft, library: map<string, Definition>, target: Option<nat>,
                    subType: string, subName: string): (e: (seq<Circuit>, seq<State>, nat))
    requires |d.states| == |d.children|
    requires target.Some? ==> target.value < |d.children|
    requires target.None? ==> subType in library
    ensures |e.1| == |e.0| && e.2 < |e.0|
  {
    if target.Some? then (d.children, d.states, target.value)
    else (d.children + [library[subType].0.(name := subName)], d.states + [library[subType].1], |d.children|)
  }

  /** The rest of a statement once its header is read: the target, one wire
      per input of the target, and the closing brace.  A new sub-circuit is
      added before its inputs are read, so they may name its own outputs. */
  function Statement(d: Draft, library: map<string, Definition>, inputsOnly: bool,
                     subType: string, subName: string, s: Stream): (r: Result<(Draft, Stream)>)
    requires |d.states| == |d.children|
    ensures r.Ok? ==> |r.value.1.tokens| < |s.tokens| && |r.value.0.states| == |r.value.0.children|
  {
    var target :- Target(ScopeOf(d), library, inputsOnly, subType, subName);
    var (children, states, k) := Enlarged(d, library, target, subType, subName);
    Connect(d, children, states, k, subType, subName, s)
  }

  /** The wires of sub-circuit k of `children`, then the closing brace. */
  function Connect(d: Draft, children: seq<Circuit>, states: seq<State>, k: nat,
                   subType: string, subName: string, s: Stream): (r: Result<(Draft, Stream)>)
    requires |states| == |children| && k < |children|
    ensures r.Ok? ==> |r.value.1.tokens| < |s.tokens| && |r.value.0.states| == |r.value.0.children|
  {
    var w :- Wires(Scope(d.inputNames, children), subType, subName, |children[k].inputNames|, 0, s);
    var rest :- Closing(w.1, TooManyInputs(subType, subName));
    Ok((Rewired(d, children, states, k, w.0), rest.1))
  }

  /** Draft d with sub-circuits `children` (with contents `states`), once sub-circuit
      k takes the wires w.0, and `...` (w.1) marks the circuit sequential. */
  function Rewired(d: Draft, children: seq<Circuit>, states: seq<State>, k: nat, w: (seq<Wire>, bool)): (r: Draft)
    requires |states| == |children| && k < |children|
    ensures |r.states| == |r.children|
  {
    var wired := Wired(children[k], states[k], w.0);
    d.(children := children[k := wired.0], states := states[k := wired.1],
       isCombinatorial := d.isCombinatorial && !w.1)
  }

  /** Connecting replaces the sub-circuits of d whatever they were. */
  lemma ConnectAfter(d: Draft, children: seq<Circuit>, states: seq<State>, k: nat,
                     subType: string, subName: string, s: Stream)
    requires |states| == |children| && k < |children|
    ensures Connect(d.(children := children, states := states), children, states, k, subType, subName, s) ==
      Connect(d, children, states, k, subType, subName, s)
  {
  }

  /** loadSubCircuit: a `circuit` (inputsOnly false) or `circuitInputs` (true)
      statement read into draft d. */
  function SubCircuit(d: Draft, library: map<string, Definition>, inputsOnly: bool, s: Stream)
    : (r: Result<(Draft, Stream)>)
    requires |d.states| == |d.children|
    ensures r.Ok? ==> |r.value.1.tokens| < |s.tokens| && |r.value.0.states| == |r.value.0.children|
  {
    var h :- Header(s);
    Statement(d, library, inputsOnly, h.0.0, h.0.1, h.1)
  }

  /** Input names, every one of which sc resolves to a cell. */
  predicate Resolved(sc: Scope, args: seq<string>, slots: seq<Slot>) {
    |args| == |slots| &&
    forall q :: 0 <= q < |args| ==>
      args[q] != "}" && args[q] != "..." && Resolve(sc, args[q]) == Ok(Some(slots[q]))
  }

  /** The bound wires of the slots. */
  function BoundTo(slots: seq<Slot>): (ws: seq<Wire>)
    ensures |ws| == |slots| && forall q :: 0 <= q < |slots| ==> ws[q] == Bound(slots[q])
  {
    seq(|slots|, q requires 0 <= q < |slots| => Bound(slots[q]))
  }

  /** n names of cells, one per input, wire the inputs to those cells. */
  lemma {:induction false} WiresWritten(sc: Scope, subType: string, subName: string, n: nat, i: nat,
                                        args: seq<string>, slots: seq<Slot>, more: seq<string>, illegal: bool)
    requires i <= n && |args| == n - i && Resolved(sc, args, slots)
    ensures Wires(sc, subType, subName, n, i, Stream(args + more, illegal)) ==
      Ok(((BoundTo(slots), false), Stream(more, illegal)))
    decreases n - i
  {
    var s := Stream(args + more, illegal);
    if i < n {
      assert Tail(s).tokens == args[1..] + more;
      assert Resolved(sc, args[1..], slots[1..]);
      WiresWritten(sc, subType, subName, n, i + 1, args[1..], slots[1..], more, illegal);
      assert [Bound(slots[0])] + BoundTo(slots[1..]) == BoundTo(slots);
    } else {
      assert s.tokens == more;
    }
  }

  /** Fewer names than inputs, then `...`: the remaining inputs are left as they
      are, and the statement marks the circuit sequential. */
  lemma {:induction false} WiresEllipsis(sc: Scope, subType: string, subName: string, n: nat, i: nat,
                                         args: seq<string>, slots: seq<Slot>, more: seq<string>, illegal: bool)
    requires i <= n && |args| < n - i && Resolved(sc, args, slots)
    ensures Wires(sc, subType, subName, n, i, Stream(args + ["..."] + more, illegal)) ==
      Ok(((BoundTo(slots), true), Stream(more, illegal)))
    decreases n - i
  {
    var s := Stream(args + ["..."] + more, illegal);
    if args != [] {
      assert Tail(s).tokens == args[1..] + ["..."] + more;
      assert Resolved(sc, args[1..], slots[1..]);
      WiresEllipsis(sc, subType, subName, n, i + 1, args[1..], slots[1..], more, illegal);
      assert [Bound(slots[0])] + BoundTo(slots[1..]) == BoundTo(slots);
    } else {
      assert s.tokens == ["..."] + more;
      assert BoundTo(slots) == [];
    }
  }

  /** Fewer names than inputs, then the closing brace: not enough inputs. */
  lemma {:induction false} WiresShort(sc: Scope, subType: string, subName: string, n: nat, i: nat,
                                      args: seq<string>, slots: seq<Slot>, more: seq<string>, illegal: bool)
    requires i <= n && |args| < n - i && Resolved(sc, args, slots)
    ensures Wires(sc, subType, subName, n, i, Stream(args + ["}"] + more, illegal)) ==
      Fail(NotEnoughInputs(subType, subName))
    decreases n - i
  {
    var s := Stream(args + ["}"] + more, illegal);
    if args != [] {
      assert Tail(s).tokens == args[1..] + ["}"] + more;
      assert Resolved(sc, args[1..], slots[1..]);
      WiresShort(sc, subType, subName, n, i + 1, args[1..], slots[1..], more, illegal);
    }
  }

  /** A statement `subType subName args...` can add a new sub-circuit to d: the
      library defines subType, subName is taken neither by an input nor by a
      sub-circuit, and args name one cell per input of the new sub-circuit. */
  predicate NewStatement(d: Draft, library: map<string, Definition>, subType: string, subName: string,
                         args: seq<string>, slots: seq<Slot>)
  {
    subType in library && subName !in d.inputNames &&
    (forall k :: 0 <= k < |d.children| ==> d.children[k].name != subName) &&
    var c := library[subType].0.(name := subName);
    |args| == |c.inputNames| && Resolved(Scope(d.inputNames, d.children + [c]), args, slots)
  }

  /** Such a statement closed by a brace adds the sub-circuit, wired as written. */
  lemma SubCircuitWritten(d: Draft, library: map<string, Definition>, inputsOnly: bool,
                          subType: string, subName: string,
                          args: seq<string>, slots: seq<Slot>, more: seq<string>, illegal: bool)
    requires |d.states| == |d.children| && NewStatement(d, library, subType, subName, args, slots)
    ensures var c := library[subType].0.(name := subName);
      SubCircuit(d, library, inputsOnly, Stream([subType, subName] + args + ["}"] + more, illegal)) ==
        Ok((d.(children := d.children + [c.(inputBindings := Wired(c, library[subType].1, BoundTo(slots)).0.inputBindings)],
               states := d.states + [library[subType].1]), Stream(more, illegal)))
  {
    var c := library[subType].0.(name := subName);
    var children := d.children + [c];
    assert FirstNamed(d.children, subName, 0) == |d.children|;
    assert [subType, subName] + args + ["}"] + more == [subType, subName] + (args + (["}"] + more));
    HeaderOf(subType, subName, args + (["}"] + more), illegal);
    WiresWritten(Scope(d.inputNames, children), subType, subName, |c.inputNames|, 0, args, slots, ["}"] + more, illegal);
    var k := |d.children|;
    var w := Wired(c, library[subType].1, BoundTo(slots));
    assert w.1 == library[subType].1;
    assert children[k := w.0] == d.children + [c.(inputBindings := w.0.inputBindings)];
    assert (d.states + [library[subType].1])[k := w.1] == d.states + [library[subType].1];
  }

  /** Such a statement followed by anything but a brace has too many inputs. */
  lemma SubCircuitTooMany(d: Draft, library: map<string, Definition>, inputsOnly: bool,
                          subType: string, subName: string,
                          args: seq<string>, slots: seq<Slot>, extra: string, more: seq<string>, illegal: bool)
    requires |d.states| == |d.children| && NewStatement(d, library, subType, subName, args, slots)
    requires extra != "}"
    ensures SubCircuit(d, library, inputsOnly, Stream([subType, subName] + args + [extra] + more, illegal)) ==
      Fail(TooManyInputs(subType, subName))
  {
    var c := library[subType].0.(name := subName);
    assert FirstNamed(d.children, subName, 0) == |d.children|;
    assert [subType, subName] + args + [extra] + more == [subType, subName] + (args + ([extra] + more));
    HeaderOf(subType, subName, args + ([extra] + more), illegal);
    WiresWritten(Scope(d.inputNames, d.children + [c]), subType, subName, |c.inputNames|, 0,
                 args, slots, [extra] + more, illegal);
  }

  /** A name short of the inputs, the closing brace means not enough inputs. */
  lemma SubCircuitTooFew(d: Draft, library: map<string, Definition>, inputsOnly: bool,
                         subType: string, subName: string,
                         args: seq<string>, slots: seq<Slot>, more: seq<string>, illegal: bool)
    requires |d.states| == |d.children| && NewStatement(d, library, subType, subName, args, slots)
    requires |args| > 0
    ensures SubCircuit(d, library, inputsOnly,
      Stream([subType, subName] + args[..|args| - 1] + ["}"] + more, illegal)) ==
      Fail(NotEnoughInputs(subType, subName))
  {
    var c := library[subType].0.(name := subName);
    var short := args[..|args| - 1];
    assert FirstNamed(d.children, subName, 0) == |d.children|;
    assert [subType, subName] + short + ["}"] + more == [subType, subName] + (short + ["}"] + more);
    HeaderOf(subType, subName, short + ["}"] + more, illegal);
    assert Resolved(Scope(d.inputNames, d.children + [c]), short, slots[..|args| - 1]);
    WiresShort(Scope(d.inputNames, d.children + [c]), subType, subName, |c.inputNames|, 0,
               short, slots[..|args| - 1], more, illegal);
  }

  /** A statement that names only some of the inputs and ends in `... }` adds
      the sub-circuit and marks the circuit sequential. */
  lemma SubCircuitSequential(d: Draft, library: map<string, Definition>, inputsOnly: bool,
                             subType: string, subName: string,
                             args: seq<string>, slots: seq<Slot>, more: seq<string>, illegal: bool)
    requires |d.states| == |d.children| && NewStatement(d, library, subType, subName, args, slots)
    requires |args| > 0
    ensures var r := SubCircuit(d, library, inputsOnly,
      Stream([subType, subName] + args[..|args| - 1] + ["...", "}"] + more, illegal));
      r.Ok? && !r.value.0.isCombinatorial && r.value.0.children[..|d.children|] == d.children &&
      r.value.0.children[|d.children|].name == subName && r.value.1 == Stream(more, illegal)
  {
    var c := library[subType].0.(name := subName);
    var short := args[..|args| - 1];
    assert FirstNamed(d.children, subName, 0) == |d.children|;
    assert [subType, subName] + short + ["...", "}"] + more == [subType, subName] + (short + ["..."] + (["}"] + more));
    HeaderOf(subType, subName, short + ["..."] + (["}"] + more), illegal);
    assert Resolved(Scope(d.inputNames, d.children + [c]), short, slots[..|args| - 1]);
    WiresEllipsis(Scope(d.inputNames, d.children + [c]), subType, subName, |c.inputNames|, 0,
                  short, slots[..|args| - 1], ["}"] + more, illegal);
  }

  // ----------------------------------------------------------------- outputs

  /** loadOutputs from output i on: one name per output, each resolved in scope
      sc, then the closing brace. */
  function Outputs(sc: Scope, m: nat, i: nat, s: Stream): (r: Result<(seq<Slot>, Stream)>)
    requires i <= m
    ensures r.Ok? ==> |r.value.0| == m - i && |r.value.1.tokens| < |s.tokens|
    decreases m - i
  {
    if i == m then
      var rest :- Closing(s, TooManyOutputs);
      Ok(([], rest.1))
    else if s.tokens == [] then Fail(EndError(s, IncompleteOutputs))
    else
      var t := s.tokens[0];
      if t == "}" then Fail(IncompleteOutputs)
      else
        var b :- Resolve(sc, t);
        if b.None? then Fail(OutputNotFound(t))
        else
          var more :- Outputs(sc, m, i + 1, Tail(s));
          Ok(([b.value] + more.0, more.1))
  }

  /** Every output is bound to a cell in scope. */
  lemma {:induction false} OutputsInScope(sc: Scope, m: nat, i: nat, s: Stream)
    requires i <= m && Outputs(sc, m, i, s).Ok?
    ensures forall q :: 0 <= q < |Outputs(sc, m, i, s).value.0| ==> InScope(sc, Outputs(sc, m, i, s).value.0[q])
    decreases m - i
  {
    if i < m {
      OutputsInScope(sc, m, i + 1, Tail(s));
    }
  }

  /** Names of cells, one per output and closed by a brace, wire the outputs to
      those cells; a name short, it is an incomplete list. */
  lemma {:induction false} OutputsWritten(sc: Scope, m: nat, i: nat, args: seq<string>, slots: seq<Slot>,
                                          more: seq<string>, illegal: bool)
    requires i <= m && |args| <= m - i && Resolved(sc, args, slots)
    ensures |args| == m - i ==>
      Outputs(sc, m, i, Stream(args + ["}"] + more, illegal)) == Ok((slots, Stream(more, illegal)))
    ensures |args| < m - i ==>
      Outputs(sc, m, i, Stream(args + ["}"] + more, illegal)) == Fail(IncompleteOutputs)
    decreases m - i
  {
    var s := Stream(args + ["}"] + more, illegal);
    if args != [] {
      assert Tail(s).tokens == args[1..] + ["}"] + more;
      assert Resolved(sc, args[1..], slots[1..]);
      OutputsWritten(sc, m, i + 1, args[1..], slots[1..], more, illegal);
      assert [slots[0]] + slots[1..] == slots;
    } else if i == m {
      assert Tail(s).tokens == more;
    }
  }

  /** The output wiring a list of slots gives. */
  function BindingsOf(slots: seq<Slot>): (bs: seq<Option<Slot>>)
    ensures |bs| == |slots| && forall q :: 0 <= q < |slots| ==> bs[q] == Some(slots[q])
  {
    seq(|slots|, q requires 0 <= q < |slots| => Some(slots[q]))
  }

  // ------------------------------------------------------------------ delays

  /** The `propagationDelay` section: one integer per output, from the list read;
      a missing entry or one that is not an integer fails. */
  function Delays(props: seq<string>, m: nat): (r: Result<seq<int>>)
    ensures r.Ok? ==>
      |props| >= m && |r.value| == m && forall i :: 0 <= i < m ==> ParseInt(props[i]) == Some(r.value[i])
    ensures r.Fail? ==>
      r.error == MalformedDelay && (|props| < m || exists i :: 0 <= i < m && ParseInt(props[i]).None?)
  {
    if |props| >= m && forall i :: 0 <= i < m ==> ParseInt(props[i]).Some? then
      Ok(seq(m, i requires 0 <= i < m => ParseInt(props[i]).value))
    else Fail(MalformedDelay)
  }

  /** Delays written out as integers are read back, whatever follows them. */
  lemma DelaysWritten(delays: seq<int>, extra: seq<string>)
    requires forall i :: 0 <= i < |delays| ==> MinInt <= delays[i] <= MaxInt
    ensures Delays(seq(|delays|, i requires 0 <= i < |delays| => IntToString(delays[i])) + extra, |delays|) == Ok(delays)
  {
    var props := seq(|delays|, i requires 0 <= i < |delays| => IntToString(delays[i])) + extra;
    forall i | 0 <= i < |delays| ensures ParseInt(props[i]) == Some(delays[i]) {
      ParseIntToString(delays[i]);
    }
    assert seq(|delays|, i requires 0 <= i < |delays| => ParseInt(props[i]).value) == delays;
  }
}
