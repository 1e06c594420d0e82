/** loadFromFile as a function of the token stream: the section loop, which
    dispatches on the keyword opening each section, and the checks that follow
    it.  A load goes from draft to draft, section by section; Sound is what
    every section keeps true, and a draft that passes the final checks has the
    shape of a well-formed circuit. */
module Drafts {
  import opened Bits
  import opened JavaLang
  import opened Errors
  import opened Lexer
  import opened Circuits
  import opened Resolution
  import opened TableText
  import opened Sections

  /** The draft of a new Circuit: no names, no sub-circuits, combinational. */
  const Initial: Draft := Draft([], [], true, None, [], [], [], None, false, false, false)

  /** No bindings yet: a circuit's inputs are bound by the circuit that uses it. */
  function Unbound(n: nat): (bs: seq<Option<Slot>>)
    ensures |bs| == n && forall i :: 0 <= i < n ==> bs[i].None?
  {
    seq(n, _ => None)
  }

  /** n cells as a new Java array holds them. */
  function ZeroCells(n: nat): (cells: seq<int>)
    ensures |cells| == n && forall i :: 0 <= i < n ==> cells[i] == 0
  {
    seq(n, _ => 0)
  }

  /** Some wire already reads an input cell: an input of a sub-circuit, or an
      output of the circuit, is bound to one of its inputs. */
  predicate ReadsInputs(children: seq<Circuit>, outputBindings: seq<Option<Slot>>) {
    (exists j, k :: 0 <= j < |children| && 0 <= k < |children[j].inputBindings| &&
      children[j].inputBindings[k].Some? && children[j].inputBindings[k].value.InputSlot?) ||
    (exists i :: 0 <= i < |outputBindings| && outputBindings[i].Some? && outputBindings[i].value.InputSlot?)
  }

  /** The inputNames section: the names read are added to the input names.  A
      section that would replace input cells some wire already reads makes the
      sections disagree. */
  function InputNamesSection(d: Draft, s: Stream): (r: Result<(Draft, Stream)>)
    ensures r.Ok? ==> |r.value.1.tokens| <= |s.tokens| && r.value.0 == d.(inputNames := r.value.0.inputNames, inputsGiven := true)
    ensures r.Ok? ==> !ReadsInputs(d.children, d.outputBindings)
    ensures StringList(s).Ok? && ReadsInputs(d.children, d.outputBindings) ==> r == Fail(InconsistentSections)
  {
    var l :- StringList(s);
    if ReadsInputs(d.children, d.outputBindings) then Fail(InconsistentSections)
    else Ok((d.(inputNames := d.inputNames + l.0, inputsGiven := true), l.1))
  }

  /** The outputNames section: the names read are added to the output names, and
      every output is unbound again. */
  function OutputNamesSection(d: Draft, s: Stream): (r: Result<(Draft, Stream)>)
    ensures r.Ok? ==> |r.value.1.tokens| <= |s.tokens|
    ensures r.Ok? ==> r.value.0 == d.(outputNames := r.value.0.outputNames,
      outputBindings := Unbound(|r.value.0.outputNames|), outputsGiven := true)
  {
    var l :- StringList(s);
    var names := d.outputNames + l.0;
    Ok((d.(outputNames := names, outputBindings := Unbound(|names|), outputsGiven := true), l.1))
  }

  /** The outputs section: every output is bound to the cell its name resolves to. */
  function OutputsSection(d: Draft, s: Stream): (r: Result<(Draft, Stream)>)
    ensures r.Ok? ==> |r.value.1.tokens| <= |s.tokens|
    ensures r.Ok? ==> r.value.0 == d.(outputBindings := r.value.0.outputBindings, outputsLoaded := true)
    ensures r.Ok? ==> |r.value.0.outputBindings| == |d.outputNames| && Points(ScopeOf(d), r.value.0.outputBindings)
  {
    var o :- Outputs(ScopeOf(d), |d.outputNames|, 0, s);
    OutputsInScope(ScopeOf(d), |d.outputNames|, 0, s);
    Ok((d.(outputBindings := BindingsOf(o.0), outputsLoaded := true), o.1))
  }

  /** The truthTable section. */
  function TableSection(d: Draft, s: Stream): (r: Result<(Draft, Stream)>)
    ensures r.Ok? ==> |r.value.1.tokens| <= |s.tokens|
    ensures r.Ok? ==> r.value.0 == d.(truthTable := r.value.0.truthTable, outputsLoaded := true)
  {
    var t :- Table(s, |d.inputNames|, |d.outputNames|);
    Ok((d.(truthTable := Some(t.0), outputsLoaded := true), t.1))
  }

  /** The propagationDelay section. */
  function DelaySection(d: Draft, s: Stream): (r: Result<(Draft, Stream)>)
    ensures r.Ok? ==> |r.value.1.tokens| <= |s.tokens|
    ensures r.Ok? ==> r.value.0 == d.(propagationDelay := r.value.0.propagationDelay)
  {
    var l :- StringList(s);
    var delays :- Delays(l.0, |d.outputNames|);
    Ok((d.(propagationDelay := Some(delays)), l.1))
  }

  /** One section of a circuit file, opened by `token`, read from s into d. */
  function Step(d: Draft, library: map<string, Definition>, token: string, s: Stream)
    : (r: Result<(Draft, Stream)>)
    requires |d.states| == |d.children|
    ensures r.Ok? ==> |r.value.1.tokens| <= |s.tokens| && |r.value.0.states| == |r.value.0.children|
  {
    if token == "inputNames" then InputNamesSection(d, s)
    else if token == "outputNames" then OutputNamesSection(d, s)
    else if token == "circuit" then
      if |d.inputNames| == 0 || |d.outputNames| == 0 then Fail(NamesBeforeCircuits)
      else SubCircuit(d, library, false, s)
    else if token == "circuitInputs" then SubCircuit(d, library, true, s)
    else if token == "outputs" then OutputsSection(d, s)
    else if token == "truthTable" then TableSection(d, s)
    else if token == "propagationDelay" then DelaySection(d, s)
    else Fail(UnknownCommand(token))
  }

  /** The section loop of loadFromFile: sections until the end of the file. */
  function Read(d: Draft, library: map<string, Definition>, s: Stream): Result<Draft>
    requires |d.states| == |d.children|
    decreases |s.tokens|
  {
    if s.tokens == [] then (if s.illegal then Fail(IllegalRepeater("")) else Ok(d))
    else
      var next :- Step(d, library, s.tokens[0], Tail(s));
      Read(next.0, library, next.1)
  }

  /** The sections agree: a truth table of one word per row of the inputs named,
      outputs bound wherever simulation copies them, and one delay per output. */
  predicate Complete(d: Draft) {
    (d.truthTable.Some? ==>
      |d.inputNames| <= MaxRowInputs && |d.truthTable.value| == Pow2(|d.inputNames|)) &&
    (d.truthTable.None? || |d.children| > 0 ==>
      forall i :: 0 <= i < |d.outputBindings| ==> d.outputBindings[i].Some?) &&
    (d.propagationDelay.Some? ==> |d.propagationDelay.value| == |d.outputNames|)
  }

  /** The checks after the section loop. */
  function Finish(d: Draft): Result<Draft> {
    if !d.outputsLoaded then Fail(OutputsRequired)
    else if !d.inputsGiven || !d.outputsGiven then Fail(MissingNames)
    else if !Complete(d) then Fail(InconsistentSections)
    else Ok(d)
  }

  /** A whole circuit file read from the start. */
  function FileDraft(library: map<string, Definition>, s: Stream): Result<Draft> {
    var d :- Read(Initial, library, s);
    Finish(d)
  }

  /** Every definition of the library is as a load leaves it. */
  predicate Stocked(library: map<string, Definition>) {
    forall t :: t in library ==> Loaded(library[t])
  }

  /** What every section keeps true: sub-circuits that are usable and wired to
      cells in scope, one binding per output, pointing at cells in scope. */
  predicate Sound(d: Draft, library: map<string, Definition>) {
    Stocked(library) &&
    |d.states| == |d.children| && |d.outputBindings| == |d.outputNames| &&
    (forall k :: 0 <= k < |d.children| ==>
      Usable((d.children[k], d.states[k])) && Attached(ScopeOf(d), d.children[k])) &&
    Points(ScopeOf(d), d.outputBindings)
  }

  /** Scope b holds every cell of scope a, and more. */
  predicate Wider(a: Scope, b: Scope) {
    |a.inputNames| <= |b.inputNames| && |a.children| <= |b.children| &&
    forall j :: 0 <= j < |a.children| ==> b.children[j].outputNames == a.children[j].outputNames
  }

  lemma WiderPoints(a: Scope, b: Scope, bs: seq<Option<Slot>>)
    requires Wider(a, b) && Points(a, bs)
    ensures Points(b, bs)
  {
    forall i | 0 <= i < |bs| && bs[i].Some? ensures InScope(b, bs[i].value) {
      assert InScope(a, bs[i].value);
    }
  }

  /** A circuit of the library under a name of its user's choosing. */
  lemma RenamedUsable(def: Definition, name: string)
    requires Loaded(def)
    ensures Loaded((def.0.(name := name), def.1))
  {
  }

  /** Binding the inputs of a usable sub-circuit to cells, or setting them to 0
      or 1, leaves it usable. */
  lemma WiredUsable(sc: Scope, d: Circuit, st: State, ws: seq<Wire>)
    requires Usable((d, st)) && Attached(sc, d)
    requires forall q :: 0 <= q < |ws| ==>
      (ws[q].Bound? ==> InScope(sc, ws[q].slot)) && (ws[q].Constant? ==> IsBit(ws[q].value))
    ensures Usable(Wired(d, st, ws)) && Attached(sc, Wired(d, st, ws).0)
  {
    WiredInScope(sc, d, st, ws);
  }

  /** The sub-circuits once the target is known are usable and wired in the
      scope they make. */
  lemma EnlargedSound(d: Draft, library: map<string, Definition>, target: Option<nat>,
                      subType: string, subName: string)
    requires Sound(d, library)
    requires target.Some? ==> target.value < |d.children|
    requires target.None? ==> subType in library
    ensures var (children, states, k) := Enlarged(d, library, target, subType, subName);
      Wider(ScopeOf(d), Scope(d.inputNames, children)) &&
      forall j :: 0 <= j < |children| ==>
        Usable((children[j], states[j])) && Attached(Scope(d.inputNames, children), children[j])
  {
    var (children, states, k) := Enlarged(d, library, target, subType, subName);
    var sc := Scope(d.inputNames, children);
    assert Wider(ScopeOf(d), sc);
    if target.None? {
      RenamedUsable(library[subType], subName);
    }
    forall j | 0 <= j < |children| ensures Usable((children[j], states[j])) && Attached(sc, children[j]) {
      if j < |d.children| {
        WiderPoints(ScopeOf(d), sc, children[j].inputBindings);
      }
    }
  }

  /** Wiring sub-circuit k of such sub-circuits keeps the draft sound. */
  lemma RewiredSound(d: Draft, library: map<string, Definition>, children: seq<Circuit>, states: seq<State>,
                     k: nat, w: (seq<Wire>, bool))
    requires Sound(d, library) && |states| == |children| && k < |children|
    requires Wider(ScopeOf(d), Scope(d.inputNames, children))
    requires forall j :: 0 <= j < |children| ==>
      Usable((children[j], states[j])) && Attached(Scope(d.inputNames, children), children[j])
    requires forall q :: 0 <= q < |w.0| ==>
      (w.0[q].Bound? ==> InScope(Scope(d.inputNames, children), w.0[q].slot)) &&
      (w.0[q].Constant? ==> IsBit(w.0[q].value))
    ensures Sound(Rewired(d, children, states, k, w), library)
  {
    var sc := Scope(d.inputNames, children);
    var wired := Wired(children[k], states[k], w.0);
    var d' := Rewired(d, children, states, k, w);
    assert Wider(sc, ScopeOf(d'));
    WiredUsable(sc, children[k], states[k], w.0);
    forall j | 0 <= j < |d'.children|
      ensures Usable((d'.children[j], d'.states[j])) && Attached(ScopeOf(d'), d'.children[j])
    {
      WiderPoints(sc, ScopeOf(d'), d'.children[j].inputBindings);
    }
    WiderPoints(ScopeOf(d), ScopeOf(d'), d'.outputBindings);
  }

  /** A sub-circuit statement keeps a draft sound. */
  lemma StatementSound(d: Draft, library: map<string, Definition>, inputsOnly: bool,
                       subType: string, subName: string, s: Stream)
    requires Sound(d, library) && Statement(d, library, inputsOnly, subType, subName, s).Ok?
    ensures Sound(Statement(d, library, inputsOnly, subType, subName, s).value.0, library)
  {
    var target := Target(ScopeOf(d), library, inputsOnly, subType, subName).value;
    var (children, states, k) := Enlarged(d, library, target, subType, subName);
    var sc := Scope(d.inputNames, children);
    var n := |children[k].inputNames|;
    var w := Wires(sc, subType, subName, n, 0, s).value;
    EnlargedSound(d, library, target, subType, subName);
    WiresPoint(sc, subType, subName, n, 0, s);
    RewiredSound(d, library, children, states, k, w.0);
  }

  lemma SubCircuitSound(d: Draft, library: map<string, Definition>, inputsOnly: bool, s: Stream)
    requires Sound(d, library) && SubCircuit(d, library, inputsOnly, s).Ok?
    ensures Sound(SubCircuit(d, library, inputsOnly, s).value.0, library)
  {
    var h := Header(s).value;
    StatementSound(d, library, inputsOnly, h.0.0, h.0.1, h.1);
  }

  /** More input names keep a draft sound: the scope only grows. */
  lemma InputNamesSound(d: Draft, library: map<string, Definition>, names: seq<string>)
    requires Sound(d, library)
    ensures Sound(d.(inputNames := d.inputNames + names, inputsGiven := true), library)
  {
    var d' := d.(inputNames := d.inputNames + names, inputsGiven := true);
    assert Wider(ScopeOf(d), ScopeOf(d'));
    forall k | 0 <= k < |d'.children| ensures Attached(ScopeOf(d'), d'.children[k]) {
      WiderPoints(ScopeOf(d), ScopeOf(d'), d'.children[k].inputBindings);
    }
    WiderPoints(ScopeOf(d), ScopeOf(d'), d'.outputBindings);
  }

  /** A section that leaves the inputs and the sub-circuits alone, and leaves one
      binding in scope per output, keeps a draft sound. */
  lemma SameScopeSound(d: Draft, d': Draft, library: map<string, Definition>)
    requires Sound(d, library)
    requires d'.inputNames == d.inputNames && d'.children == d.children && d'.states == d.states
    requires |d'.outputBindings| == |d'.outputNames| && Points(ScopeOf(d'), d'.outputBindings)
    ensures Sound(d', library)
  {
    assert ScopeOf(d') == ScopeOf(d);
  }

  /** Every section keeps a draft sound. */
  lemma StepSound(d: Draft, library: map<string, Definition>, token: string, s: Stream)
    requires Sound(d, library) && Step(d, library, token, s).Ok?
    ensures Sound(Step(d, library, token, s).value.0, library)
  {
    var r := Step(d, library, token, s);
    if token == "circuit" || token == "circuitInputs" {
      SubCircuitSound(d, library, token == "circuitInputs", s);
    } else if token == "inputNames" {
      assert r == InputNamesSection(d, s);
      var d' := r.value.0;
      InputNamesSound(d, library, d'.inputNames[|d.inputNames|..]);
      assert d' == d.(inputNames := d.inputNames + d'.inputNames[|d.inputNames|..], inputsGiven := true);
    } else if token == "outputNames" {
      assert r == OutputNamesSection(d, s);
      SameScopeSound(d, r.value.0, library);
    } else if token == "outputs" {
      assert r == OutputsSection(d, s);
      SameScopeSound(d, r.value.0, library);
    } else if token == "truthTable" {
      assert r == TableSection(d, s);
      SameScopeSound(d, r.value.0, library);
    } else {
      assert r == DelaySection(d, s);
      SameScopeSound(d, r.value.0, library);
    }
  }

  /** The outputs and truthTable sections set outputsLoaded themselves: setting it
      before them changes nothing. */
  lemma LoadedFirst(d: Draft, library: map<string, Definition>, s: Stream)
    requires |d.states| == |d.children|
    ensures Step(d, library, "outputs", s) == OutputsSection(d.(outputsLoaded := true), s)
    ensures Step(d, library, "truthTable", s) == TableSection(d.(outputsLoaded := true), s)
  {
    assert ScopeOf(d.(outputsLoaded := true)) == ScopeOf(d);
  }

  /** ... and so does a whole section loop. */
  lemma {:induction false} ReadSound(d: Draft, library: map<string, Definition>, s: Stream)
    requires Sound(d, library) && Read(d, library, s).Ok?
    ensures Sound(Read(d, library, s).value, library)
    decreases |s.tokens|
  {
    if s.tokens != [] {
      var next := Step(d, library, s.tokens[0], Tail(s)).value;
      StepSound(d, library, s.tokens[0], Tail(s));
      ReadSound(next.0, library, next.1);
    }
  }

  /** The circuit a draft describes, with the given cell arrays. */
  function Shape(d: Draft, circuitType: string, inputs: array<int>, outputs: array<int>): Circuit {
    Circuit(circuitType, "", d.inputNames, d.outputNames, d.isCombinatorial, d.truthTable,
      d.children, Unbound(|d.inputNames|), inputs, d.outputBindings, outputs, d.propagationDelay)
  }

  /** What its cells hold: zero in its own, what loading left in its sub-circuits'. */
  function Start(d: Draft): State {
    State(ZeroCells(|d.inputNames|), ZeroCells(|d.outputNames|), d.states)
  }

  /** A sound draft that passes the final checks describes a well-formed circuit
      whose cells hold 0 or 1 and whose inputs are not bound: a definition as a
      load leaves it. */
  lemma FinishedLoaded(d: Draft, library: map<string, Definition>, circuitType: string,
                       inputs: array<int>, outputs: array<int>)
    requires Sound(d, library) && Finish(d).Ok?
    requires inputs.Length == |d.inputNames| && outputs.Length == |d.outputNames|
    ensures Loaded((Shape(d, circuitType, inputs, outputs), Start(d)))
  {
    var c := Shape(d, circuitType, inputs, outputs);
    forall k | 0 <= k < |c.internalCircuits| ensures WellFormed(c.internalCircuits[k]) && ChildWired(c, k) {
      assert Usable((d.children[k], d.states[k]));
      assert Attached(ScopeOf(d), d.children[k]);
    }
    assert Points(ScopeOf(d), d.outputBindings);
    assert WellFormed(c);
  }

  /** outputsLoaded is set by an outputs or a truthTable section, and by no other. */
  lemma StepLoads(d: Draft, library: map<string, Definition>, token: string, s: Stream)
    requires |d.states| == |d.children| && Step(d, library, token, s).Ok?
    ensures Step(d, library, token, s).value.0.outputsLoaded <==>
      d.outputsLoaded || token == "outputs" || token == "truthTable"
  {
    if token == "circuit" || token == "circuitInputs" {
      SubCircuitKeeps(d, library, token == "circuitInputs", s);
    }
  }

  lemma SubCircuitKeeps(d: Draft, library: map<string, Definition>, inputsOnly: bool, s: Stream)
    requires |d.states| == |d.children| && SubCircuit(d, library, inputsOnly, s).Ok?
    ensures SubCircuit(d, library, inputsOnly, s).value.0.outputsLoaded == d.outputsLoaded
  {
    var h := Header(s).value;
    var target := Target(ScopeOf(d), library, inputsOnly, h.0.0, h.0.1).value;
    var e := Enlarged(d, library, target, h.0.0, h.0.1);
    var w := Wires(Scope(d.inputNames, e.0), h.0.0, h.0.1, |e.0[e.2].inputNames|, 0, h.1).value;
    assert SubCircuit(d, library, inputsOnly, s).value.0 == Rewired(d, e.0, e.1, e.2, w.0);
  }
}
