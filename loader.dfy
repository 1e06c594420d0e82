/** loadFromFile and the section loaders of Circuit.java.  A Loader is the Circuit
    instance being loaded: its fields are the name lists, the sub-circuits, the
    cell arrays, the output wiring, the truth table and the delays that the
    sections of the file fill in, read through a Lexer.  Every section method
    does what the matching section function of Drafts says, so a whole load does
    what FileDraft says.  Sub-circuit types are looked up in a library of
    definitions instead of being loaded from their own files. */
module Loader {
  import opened Bits
  import opened JavaLang
  import opened Errors
  import opened Lexer
  import opened Circuits
  import opened Synthesis
  import opened Instances
  import opened Resolution
  import opened TableText
  import opened Sections
  import opened Drafts

  /** c is an instance of the circuit that draft d describes: its shape, with
      cells of its own, all holding what loading leaves in them. */
  ghost predicate Built(c: Circuit, d: Draft, circuitType: string)
    reads Cells(c)
  {
    Copy(c, Shape(d, circuitType, c.inputs, c.outputs)) && WellFormed(c) && Disjoint(c) &&
    Loaded((Shape(d, circuitType, c.inputs, c.outputs), Start(d))) && StateOf(c) == Start(d)
  }

  /** The guard of the automatic flattening at the end of loadFromFile. */
  predicate Flattens(d: Draft) {
    d.isCombinatorial && d.truthTable.None? &&
    |d.inputNames| <= MaxTableInputs && |d.outputNames| <= MaxTableOutputs
  }

  /** c is what loadFromFile returns for draft d: its instance, given the truth
      table calculateTruthTable computes when the guard holds and every part of it
      is combinational, with the cells that the row loop leaves behind. */
  ghost predicate Flattened(c: Circuit, d: Draft, circuitType: string)
    reads Cells(c)
  {
    var plain := c.(truthTable := d.truthTable);
    Copy(plain, Shape(d, circuitType, c.inputs, c.outputs)) && Loaded((plain, Start(d))) &&
    Settled(plain, Start(d)) &&
    if Flattens(d) && Combinational(plain) then
      c.truthTable == Some(Synthesized(plain, Start(d))) &&
      StateOf(c) == RowsState(plain, Start(d), Pow2(|d.inputNames|))
    else
      c.truthTable == d.truthTable && StateOf(c) == Start(d)
  }

  /** loadFromFile for one circuit type whose sub-circuit definitions are in the
      library. */
  method Load(source: seq<Raw>, library: map<string, Definition>, circuitType: string)
    returns (r: Result<Circuit>)
    requires Supported(source) && Stocked(library)
    ensures Agrees(r, FileDraft(library, Tokenize(source)))
    ensures r.Ok? ==> WellFormed(r.value) && Disjoint(r.value) && Loaded((r.value, StateOf(r.value)))
    ensures r.Ok? ==> Flattened(r.value, FileDraft(library, Tokenize(source)).value, circuitType)
    ensures r.Ok? ==> forall a :: a in Cells(r.value) ==> fresh(a)
  {
    var loader := new Loader(source, library, circuitType);
    var built := loader.ReadDefinition();
    if built.Fail? {
      return Fail(built.error);
    }
    var c := Flatten(built.value, FileDraft(library, Tokenize(source)).value, circuitType);
    r := Ok(c);
  }

  /** The end of loadFromFile: a combinational circuit without a truth table,
      small enough, is given the one calculateTruthTable computes. */
  method Flatten(c: Circuit, ghost d: Draft, circuitType: string) returns (e: Circuit)
    requires Built(c, d, circuitType)
    modifies Cells(c)
    ensures Flattened(e, d, circuitType)
    ensures WellFormed(e) && Disjoint(e) && Loaded((e, StateOf(e)))
    ensures Cells(e) == Cells(c)
  {
    assert c.(truthTable := d.truthTable) == c;
    BinarySettled(c, StateOf(c));
    ghost var s0 := StateOf(c);
    if c.isCombinatorial && c.truthTable.None? &&
       |c.inputNames| <= MaxTableInputs && |c.outputNames| <= MaxTableOutputs {
      var table := CalculateTruthTable(c);
      if table.Some? {
        RowsBinary(c, s0, Pow2(|c.inputNames|));
        FlatWellFormed(c, table.value);
        Retabled(c, table);
        return c.(truthTable := table);
      }
    }
    e := c;
  }

  /** The shape does not depend on the cell arrays it was given. */
  lemma ShapeCopy(c: Circuit, d: Draft, circuitType: string, inputs: array<int>, outputs: array<int>)
    requires Copy(c, Shape(d, circuitType, inputs, outputs))
    ensures Copy(c, Shape(d, circuitType, c.inputs, c.outputs))
  {
  }

  class Loader {
    const lexer: Lexer
    const library: map<string, Definition>
    const circuitType: string
    var inputNames: seq<string>
    var outputNames: seq<string>
    var isCombinatorial: bool
    var truthTable: Option<seq<nat>>
    var internalCircuits: seq<Circuit>
    /** What the cells of each sub-circuit hold. */
    var internalStates: seq<State>
    var inputs: array?<int>
    var outputBindings: seq<Option<Slot>>
    var outputs: array?<int>
    var propagationDelay: Option<seq<int>>
    /** Whether an outputs or truthTable section has been met. */
    var outputsLoaded: bool

    /** A load of the given type, about to read the tokens of source. */
    constructor (source: seq<Raw>, library: map<string, Definition>, circuitType: string)
      requires Supported(source)
      ensures this.library == library && this.circuitType == circuitType
      ensures fresh(lexer) && lexer.Valid() && lexer.Remaining() == Tokenize(source)
      ensures Snapshot() == Initial
    {
      lexer := new Lexer(source);
      this.library := library;
      this.circuitType := circuitType;
      inputNames, outputNames, internalCircuits, internalStates, outputBindings := [], [], [], [], [];
      isCombinatorial, truthTable, propagationDelay := true, None, None;
      inputs, outputs := null, null;
      outputsLoaded := false;
    }

    /** The fields as a draft. */
    function Snapshot(): Draft
      reads this
    {
      Draft(inputNames, outputNames, isCombinatorial, truthTable, internalCircuits, internalStates,
        outputBindings, propagationDelay, inputs != null, outputs != null, outputsLoaded)
    }

    /** The draft is sound and the cell arrays are sized by the name lists. */
    ghost predicate Valid()
      reads this, lexer
    {
      lexer.Valid() && Sound(Snapshot(), library) &&
      (inputs != null ==> inputs.Length == |inputNames|) &&
      (outputs != null ==> outputs.Length == |outputNames|)
    }

    /** The section just read did what spec says: it failed with spec's error, or
        it left the fields at spec's draft and the lexer at spec's rest. */
    ghost predicate Performs(r: Result<()>, spec: Result<(Draft, Stream)>)
      reads this, lexer
    {
      match spec
      case Fail(e) => r.Fail? && (if e.IllegalRepeater? then r.error.IllegalRepeater? else r.error == e)
      case Ok((d, rest)) => r == Ok(()) && Snapshot() == d && lexer.Valid() && lexer.Remaining() == rest
    }

    /** One section of the loop of loadFromFile, opened by `token`. */
    method Command(token: string) returns (r: Result<()>)
      requires Valid()
      modifies lexer, this
      ensures Performs(r, Drafts.Step(old(Snapshot()), library, token, old(lexer.Remaining())))
      ensures r.Ok? ==> Valid()
    {
      if token == "inputNames" {
        r := InputNamesCommand();
      } else if token == "outputNames" {
        r := OutputNamesCommand();
      } else if token == "circuit" || token == "circuitInputs" {
        r := CircuitCommand(token);
      } else if token == "outputs" {
        r := OutputsCommand();
      } else if token == "truthTable" {
        r := TableCommand();
      } else if token == "propagationDelay" {
        r := DelayCommand();
      } else {
        r := Fail(UnknownCommand(token));
      }
    }

    method InputNamesCommand() returns (r: Result<()>)
      requires Valid()
      modifies lexer, this`inputNames, this`inputs
      ensures Performs(r, Drafts.Step(old(Snapshot()), library, "inputNames", old(lexer.Remaining())))
      ensures r.Ok? ==> Valid()
    {
      ghost var d0, s0 := Snapshot(), lexer.Remaining();
      r := LoadInputNames();
      if r.Ok? {
        StepSound(d0, library, "inputNames", s0);
      }
    }

    method OutputNamesCommand() returns (r: Result<()>)
      requires Valid()
      modifies lexer, this`outputNames, this`outputs, this`outputBindings
      ensures Performs(r, Drafts.Step(old(Snapshot()), library, "outputNames", old(lexer.Remaining())))
      ensures r.Ok? ==> Valid()
    {
      ghost var d0, s0 := Snapshot(), lexer.Remaining();
      r := LoadOutputNames();
      if r.Ok? {
        StepSound(d0, library, "outputNames", s0);
      }
    }

    /** A circuit statement needs both name lists; a circuitInputs one does not. */
    method CircuitCommand(token: string) returns (r: Result<()>)
      requires Valid() && (token == "circuit" || token == "circuitInputs")
      modifies lexer, this`internalCircuits, this`internalStates, this`isCombinatorial
      ensures Performs(r, Drafts.Step(old(Snapshot()), library, token, old(lexer.Remaining())))
      ensures r.Ok? ==> Valid()
    {
      ghost var d0, s0 := Snapshot(), lexer.Remaining();
      if token == "circuit" && (|inputNames| == 0 || |outputNames| == 0) {
        return Fail(NamesBeforeCircuits);
      }
      r := LoadSubCircuit(token == "circuitInputs");
      if r.Ok? {
        StepSound(d0, library, token, s0);
      }
    }

    method OutputsCommand() returns (r: Result<()>)
      requires Valid()
      modifies lexer, this`outputsLoaded, this`outputBindings
      ensures Performs(r, Drafts.Step(old(Snapshot()), library, "outputs", old(lexer.Remaining())))
      ensures r.Ok? ==> Valid()
    {
      ghost var d0, s0 := Snapshot(), lexer.Remaining();
      outputsLoaded := true;
      LoadedFirst(d0, library, s0);
      r := LoadOutputs();
      if r.Ok? {
        SameScopeSound(d0, Snapshot(), library);
      }
    }

    method TableCommand() returns (r: Result<()>)
      requires Valid()
      modifies lexer, this`outputsLoaded, this`truthTable
      ensures Performs(r, Drafts.Step(old(Snapshot()), library, "truthTable", old(lexer.Remaining())))
      ensures r.Ok? ==> Valid()
    {
      ghost var d0, s0 := Snapshot(), lexer.Remaining();
      outputsLoaded := true;
      LoadedFirst(d0, library, s0);
      r := LoadTruthTable();
      if r.Ok? {
        SameScopeSound(d0, Snapshot(), library);
      }
    }

    method DelayCommand() returns (r: Result<()>)
      requires Valid()
      modifies lexer, this`propagationDelay
      ensures Performs(r, Drafts.Step(old(Snapshot()), library, "propagationDelay", old(lexer.Remaining())))
      ensures r.Ok? ==> Valid()
    {
      ghost var d0, s0 := Snapshot(), lexer.Remaining();
      r := LoadPropagationDelay();
      if r.Ok? {
        StepSound(d0, library, "propagationDelay", s0);
      }
    }

    /** The section loop of loadFromFile and the checks after it; the circuit
        read is then instantiated with cells of its own. */
    method ReadDefinition() returns (r: Result<Circuit>)
      requires Valid() && Snapshot() == Initial
      modifies lexer, this
      ensures Agrees(r, FileDraft(library, old(lexer.Remaining())))
      ensures r.Ok? ==> Built(r.value, FileDraft(library, old(lexer.Remaining())).value, circuitType)
      ensures r.Ok? ==> forall a :: a in Cells(r.value) ==> fresh(a)
    {
      var sections := ReadSections();
      if sections.Fail? {
        return Fail(sections.error);
      }
      r := Finished();
    }

    /** The section loop of loadFromFile: a section per keyword, to the end of the file. */
    method ReadSections() returns (r: Result<()>)
      requires Valid()
      modifies lexer, this
      ensures Agrees(r, Drafts.Read(old(Snapshot()), library, old(lexer.Remaining())))
      ensures r.Ok? ==> Valid() && Drafts.Read(old(Snapshot()), library, old(lexer.Remaining())) == Ok(Snapshot())
    {
      ghost var d0, s0 := Snapshot(), lexer.Remaining();
      while true
        invariant Valid()
        invariant Drafts.Read(d0, library, s0) == Drafts.Read(Snapshot(), library, lexer.Remaining())
        decreases |lexer.Remaining().tokens|
      {
        var token := lexer.GetToken();
        if token.Fail? {
          return Fail(token.error);
        }
        if token.value.None? {
          break;
        }
        var c := Command(token.value.value);
        if c.Fail? {
          return Fail(c.error);
        }
      }
      r := Ok(());
    }

    /** The checks after the section loop, then a new instance of the circuit. */
    method Finished() returns (r: Result<Circuit>)
      requires Valid()
      ensures Agrees(r, Finish(Snapshot()))
      ensures r.Ok? ==> Built(r.value, Snapshot(), circuitType)
      ensures r.Ok? ==> forall a :: a in Cells(r.value) ==> fresh(a)
    {
      if !outputsLoaded {
        return Fail(OutputsRequired);
      }
      if inputs == null || outputs == null {
        return Fail(MissingNames);
      }
      var d := Snapshot();
      if !Complete(d) {
        return Fail(InconsistentSections);
      }
      FinishedLoaded(d, library, circuitType, inputs, outputs);
      var c := Instantiate(Shape(d, circuitType, inputs, outputs), Start(d));
      ShapeCopy(c, d, circuitType, inputs, outputs);
      r := Ok(c);
    }

    /** getArrayAndIndex, with the bounds check on the output index. */
    method GetArrayAndIndex(str: string) returns (r: Result<Option<Slot>>)
      ensures r == Resolve(ScopeOf(Snapshot()), str)
    {
      var index := IndexOf(inputNames, str);
      if index >= 0 {
        return Ok(Some(InputSlot(index)));
      }
      var dot := IndexOf(str, '.');
      var suffix: Option<string> := if dot > 0 then Some(str[dot + 1..]) else None;
      var j := 0;
      while j < |internalCircuits|
        invariant 0 <= j <= |internalCircuits|
        invariant forall i :: 0 <= i < j ==> !Designates(internalCircuits[i], str)
      {
        var d := internalCircuits[j];
        if str == d.name || StartsWith(str, d.name + ".") {
          FirstMatchAt(internalCircuits, str, 0, j);
          r := OutputOf(j, suffix, str);
          return;
        }
        j := j + 1;
      }
      FirstMatchAt(internalCircuits, str, 0, j);
      return Ok(None);
    }

    /** The output of sub-circuit j that str names, once str names no input and
        j is the first sub-circuit it designates. */
    method OutputOf(j: int, suffix: Option<string>, str: string) returns (r: Result<Option<Slot>>)
      requires IndexOf(inputNames, str) < 0 && suffix == Suffix(str)
      requires 0 <= j == FirstMatch(internalCircuits, str, 0) < |internalCircuits|
      ensures r == Resolve(ScopeOf(Snapshot()), str)
    {
      var d := internalCircuits[j];
      if suffix.None? {
        if |d.outputNames| > 1 {
          return Fail(UnqualifiedOutput(str));
        }
        r := Ok(Some(OutputSlot(j, 0)));
      } else {
        var i := IndexOf(d.outputNames, suffix.value);
        if i >= 0 {
          return Ok(Some(OutputSlot(j, i)));
        }
        var v := ParseInt(suffix.value);
        if v.None? {
          return Ok(None);
        }
        r := Ok(Some(OutputSlot(j, v.value)));
      }
      if !InScope(Scope(inputNames, internalCircuits), r.value.value) {
        r := Ok(None);
      }
    }

    /** loadStringList: the tokens read, which the caller appends to its list. */
    method LoadStringList() returns (r: Result<seq<string>>)
      requires lexer.Valid()
      modifies lexer
      ensures Follows(r, StringList(old(lexer.Remaining())), lexer)
    {
      ghost var s0 := lexer.Remaining();
      var list: seq<string> := [];
      PrefixedNothing(StringList(s0));
      while true
        invariant lexer.Valid()
        invariant StringList(s0) == Prefixed(list, StringList(lexer.Remaining()))
        decreases |lexer.Remaining().tokens|
      {
        var name := NextName();
        if name.Fail? {
          return Fail(name.error);
        }
        if name.value.None? {
          assert list + [] == list;
          return Ok(list);
        }
        PrefixedTwice(list, [name.value.value], StringList(lexer.Remaining()));
        list := list + [name.value.value];
      }
    }

    /** ungetToken of the keyword just read: the stream is as it was before. */
    method PushBack(t: string, ghost s: Stream)
      requires lexer.Valid() && lexer.Pending() == [] && lexer.extraToken.None?
      requires s.tokens != [] && s.tokens[0] == t && lexer.Remaining() == Tail(s)
      modifies lexer
      ensures lexer.Valid() && lexer.Remaining() == s
    {
      lexer.UngetToken(t);
      assert [t] + s.tokens[1..] == s.tokens;
    }

    /** One turn of the loop of loadStringList: the next name of the list, or
        None where the list stops (a keyword, pushed back; a brace; the end). */
    method NextName() returns (r: Result<Option<string>>)
      requires lexer.Valid()
      modifies lexer
      ensures r.Fail? ==> Agrees(r, StringList(old(lexer.Remaining())))
      ensures r.Ok? ==> lexer.Valid()
      ensures r == Ok(None) ==> StringList(old(lexer.Remaining())) == Ok(([], lexer.Remaining()))
      ensures r.Ok? && r.value.Some? ==>
        |lexer.Remaining().tokens| < |old(lexer.Remaining()).tokens| &&
        StringList(old(lexer.Remaining())) == Prefixed([r.value.value], StringList(lexer.Remaining()))
    {
      ghost var s := lexer.Remaining();
      var token := lexer.GetToken();
      if token.Fail? {
        return Fail(token.error);
      }
      if token.value.None? {
        assert StringList(s) == Ok(([], s));
        return Ok(None);
      }
      var t := token.value.value;
      if IsKeyword(t) {
        PushBack(t, s);
        assert StringList(s) == Ok(([], s));
        return Ok(None);
      }
      if t == "}" {
        assert StringList(s) == Ok(([], lexer.Remaining()));
        return Ok(None);
      }
      assert StringList(s) == Prefixed([t], StringList(lexer.Remaining()));
      r := Ok(Some(t));
    }

    /** The `inputNames` section: the names read are appended to the input names,
        and a new array of as many zero cells replaces the input cells, unless a
        wire already reads the input cells. */
    method LoadInputNames() returns (r: Result<()>)
      requires lexer.Valid()
      modifies lexer, this`inputNames, this`inputs
      ensures Performs(r, InputNamesSection(old(Snapshot()), old(lexer.Remaining())))
      ensures r.Ok? ==> fresh(inputs) && inputs[..] == ZeroCells(|inputNames|)
    {
      var l := LoadStringList();
      if l.Fail? {
        return Fail(l.error);
      }
      if ReadsInputs(internalCircuits, outputBindings) {
        return Fail(InconsistentSections);
      }
      inputNames := inputNames + l.value;
      inputs := new int[|inputNames|](_ => 0);
      r := Ok(());
    }

    /** The `outputNames` section: the names read are appended to the output
        names, a new array of as many zero cells replaces the output cells, and
        no output is wired. */
    method LoadOutputNames() returns (r: Result<()>)
      requires lexer.Valid()
      modifies lexer, this`outputNames, this`outputs, this`outputBindings
      ensures Performs(r, OutputNamesSection(old(Snapshot()), old(lexer.Remaining())))
      ensures r.Ok? ==> fresh(outputs) && outputs[..] == ZeroCells(|outputNames|)
    {
      var l := LoadStringList();
      if l.Fail? {
        return Fail(l.error);
      }
      outputNames := outputNames + l.value;
      outputs := new int[|outputNames|](_ => 0);
      outputBindings := Unbound(|outputNames|);
      r := Ok(());
    }

    /** loadOutputs: every output is bound to the cell its name resolves to. */
    method LoadOutputs() returns (r: Result<()>)
      requires lexer.Valid() && outputsLoaded
      modifies lexer, this`outputBindings
      ensures Performs(r, OutputsSection(old(Snapshot()), old(lexer.Remaining())))
    {
      var slots := ReadOutputs(|outputNames|);
      if slots.Fail? {
        return Fail(slots.error);
      }
      outputBindings := BindingsOf(slots.value);
      r := Ok(());
    }

    /** The loop of loadOutputs: one name per output, each resolved to the cell
        the output copies, then the closing brace. */
    method ReadOutputs(m: nat) returns (r: Result<seq<Slot>>)
      requires lexer.Valid()
      modifies lexer
      ensures Follows(r, Outputs(ScopeOf(Snapshot()), m, 0, old(lexer.Remaining())), lexer)
    {
      var slots := ReadSlots(m, ScopeOf(Snapshot()));
      if slots.Fail? {
        return Fail(slots.error);
      }
      var close := CloseStatement(TooManyOutputs);
      if close.Fail? {
        return Fail(close.error);
      }
      assert slots.value + [] == slots.value;
      r := Ok(slots.value);
    }

    /** The names of the m outputs, before the closing brace, resolved in sc. */
    method ReadSlots(m: nat, ghost sc: Scope) returns (r: Result<seq<Slot>>)
      requires lexer.Valid() && sc == ScopeOf(Snapshot())
      modifies lexer
      ensures r.Fail? ==> Agrees(r, Outputs(sc, m, 0, old(lexer.Remaining())))
      ensures r.Ok? ==> lexer.Valid() && Outputs(sc, m, 0, old(lexer.Remaining())) == Prefixed(r.value, Outputs(sc, m, m, lexer.Remaining()))
    {
      ghost var s0 := lexer.Remaining();
      var slots: seq<Slot> := [];
      var i := 0;
      PrefixedNothing(Outputs(sc, m, 0, s0));
      while i < m
        invariant lexer.Valid() && i <= m
        invariant Outputs(sc, m, 0, s0) == Prefixed(slots, Outputs(sc, m, i, lexer.Remaining()))
        decreases m - i
      {
        var slot := ReadOutput(m, i, sc);
        if slot.Fail? {
          return Fail(slot.error);
        }
        PrefixedTwice(slots, [slot.value], Outputs(sc, m, i + 1, lexer.Remaining()));
        slots := slots + [slot.value];
        i := i + 1;
      }
      r := Ok(slots);
    }

    /** Output i of m: the cell its name resolves to. */
    method ReadOutput(m: nat, i: nat, ghost sc: Scope) returns (r: Result<Slot>)
      requires lexer.Valid() && i < m && sc == ScopeOf(Snapshot())
      modifies lexer
      ensures r.Fail? ==> Agrees(r, Outputs(sc, m, i, old(lexer.Remaining())))
      ensures r.Ok? ==> lexer.Valid() && Outputs(sc, m, i, old(lexer.Remaining())) == Prefixed([r.value], Outputs(sc, m, i + 1, lexer.Remaining()))
    {
      var token := lexer.GetToken();
      if token.Fail? {
        return Fail(token.error);
      }
      if token.value.None? || token.value.value == "}" {
        return Fail(IncompleteOutputs);
      }
      var t := token.value.value;
      var b := GetArrayAndIndex(t);
      if b.Fail? {
        return Fail(b.error);
      }
      if b.value.None? {
        return Fail(OutputNotFound(t));
      }
      r := Ok(b.value.value);
    }

    /** The closing brace of a statement: the end of the file fails where the
        source dereferences the missing token, any other token with e. */
    method CloseStatement(e: Error) returns (r: Result<()>)
      requires lexer.Valid()
      modifies lexer
      ensures Follows(r, Closing(old(lexer.Remaining()), e), lexer)
    {
      var token := lexer.GetToken();
      if token.Fail? {
        return Fail(token.error);
      }
      if token.value.None? {
        return Fail(UnexpectedEnd);
      }
      if token.value.value != "}" {
        return Fail(e);
      }
      r := Ok(());
    }

    /** One field of a truth-table row: the bits of whole tokens until count
        bits have been seen. */
    method ReadField(count: nat) returns (r: Result<nat>)
      requires lexer.Valid()
      modifies lexer
      ensures Follows(r, Field(old(lexer.Remaining()), count, 0, 0), lexer)
    {
      ghost var s0 := lexer.Remaining();
      var v: nat, j: nat := 0, 0;
      while j < count
        invariant lexer.Valid()
        invariant Field(s0, count, 0, 0) == Field(lexer.Remaining(), count, v, j)
        decreases |lexer.Remaining().tokens|
      {
        var token := lexer.GetToken();
        if token.Fail? {
          return Fail(token.error);
        }
        if token.value.None? {
          return Fail(IncompleteTruthTable);
        }
        v, j := ScanToken(token.value.value, v, j);
      }
      r := Ok(v);
    }

    /** loadTruthTable: a table of 2^n words, zero at first, filled row by row;
        then everything up to the closing brace is skipped. */
    method LoadTruthTable() returns (r: Result<()>)
      requires lexer.Valid() && outputsLoaded
      modifies lexer, this`truthTable
      ensures Performs(r, TableSection(old(Snapshot()), old(lexer.Remaining())))
    {
      var n, m := |inputNames|, |outputNames|;
      if n > MaxRowInputs {
        return Fail(TableTooLarge);
      }
      var table := ReadRows(n, m);
      if table.Fail? {
        return Fail(table.error);
      }
      var close := SkipToBrace();
      if close.Fail? {
        return Fail(close.error);
      }
      truthTable := Some(table.value);
      r := Ok(());
    }

    /** The row loop of loadTruthTable, in a table of 2^n words, zero at first. */
    method ReadRows(n: nat, m: nat) returns (r: Result<seq<nat>>)
      requires lexer.Valid() && n <= MaxRowInputs
      modifies lexer
      ensures Follows(r, Rows(old(lexer.Remaining()), n, m, 0, Zeros(n)), lexer)
    {
      var table := NewTable(n);
      var filled := FillRows(n, m, table);
      if filled.Fail? {
        return Fail(filled.error);
      }
      r := Ok(table[..]);
    }

    /** The row loop of loadTruthTable, into the table. */
    method FillRows(n: nat, m: nat, table: array<nat>) returns (r: Result<()>)
      requires lexer.Valid() && table.Length == Pow2(n)
      modifies lexer, table
      ensures r.Fail? ==> Agrees(r, Rows(old(lexer.Remaining()), n, m, 0, old(table[..])))
      ensures r.Ok? ==>
        lexer.Valid() && Rows(old(lexer.Remaining()), n, m, 0, old(table[..])) == Ok((table[..], lexer.Remaining()))
    {
      ghost var s0, t0 := lexer.Remaining(), table[..];
      var i := 0;
      while i < table.Length
        invariant lexer.Valid() && i <= table.Length
        invariant Rows(s0, n, m, 0, t0) == Rows(lexer.Remaining(), n, m, i, table[..])
        decreases table.Length - i
      {
        var row := ReadRow(n, m, table, i);
        if row.Fail? {
          return Fail(row.error);
        }
        i := i + 1;
      }
      r := Ok(());
    }

    /** The table of loadTruthTable before its rows are read: 2^n zero words. */
    static method NewTable(n: nat) returns (table: array<nat>)
      requires n <= MaxRowInputs
      ensures fresh(table) && table[..] == Zeros(n)
    {
      table := new nat[Pow2(n)](_ => 0);
      assert table[..] == Zeros(n);
    }

    /** One row of a truth table: the word of its output bits is stored at the
        row number of its input bits. */
    method ReadRow(n: nat, m: nat, table: array<nat>, ghost i: nat) returns (r: Result<()>)
      requires lexer.Valid() && table.Length == Pow2(n) && i < Pow2(n)
      modifies lexer, table
      ensures r.Fail? ==> Agrees(r, Rows(old(lexer.Remaining()), n, m, i, old(table[..])))
      ensures r.Ok? ==>
        lexer.Valid() &&
        Rows(old(lexer.Remaining()), n, m, i, old(table[..])) == Rows(lexer.Remaining(), n, m, i + 1, table[..])
    {
      ghost var s, tt := lexer.Remaining(), table[..];
      var row := ReadField(n);
      if row.Fail? {
        return Fail(row.error);
      }
      var word := ReadField(m);
      if word.Fail? {
        return Fail(word.error);
      }
      if row.value >= table.Length {
        return Fail(RowOutOfRange(row.value));
      }
      table[row.value] := word.value;
      assert table[..] == tt[row.value := word.value];
      RowStep(s, n, m, i, tt, row.value, word.value, lexer.Remaining());
      r := Ok(());
    }

    /** The tokens after the rows of a truth table, up to and including a brace. */
    method SkipToBrace() returns (r: Result<()>)
      requires lexer.Valid()
      modifies lexer
      ensures Follows(r, Close(old(lexer.Remaining())), lexer)
    {
      ghost var s0 := lexer.Remaining();
      while true
        invariant lexer.Valid() && Close(s0) == Close(lexer.Remaining())
        decreases |lexer.Remaining().tokens|
      {
        var token := lexer.GetToken();
        if token.Fail? {
          return Fail(token.error);
        }
        if token.value.None? {
          return Fail(MissingBraceAfterTruthTable);
        }
        if token.value.value == "}" {
          return Ok(());
        }
      }
    }

    /** The `propagationDelay` section: a list of strings, of which the first
        one per output is parsed as that output's delay. */
    method LoadPropagationDelay() returns (r: Result<()>)
      requires lexer.Valid()
      modifies lexer, this`propagationDelay
      ensures Performs(r, DelaySection(old(Snapshot()), old(lexer.Remaining())))
    {
      var props := LoadStringList();
      if props.Fail? {
        return Fail(props.error);
      }
      var delays := ParseDelays(props.value, |outputNames|);
      if delays.Fail? {
        return Fail(delays.error);
      }
      propagationDelay := Some(delays.value);
      r := Ok(());
    }

    /** The parsing loop of the propagationDelay section: one integer per output,
        stored in a new array. */
    static method ParseDelays(props: seq<string>, m: nat) returns (r: Result<seq<int>>)
      ensures r == Delays(props, m)
    {
      var delays := new int[m](_ => 0);
      var i := 0;
      while i < m
        invariant i <= m && i <= |props|
        invariant forall k :: 0 <= k < i ==> ParseInt(props[k]) == Some(delays[k])
      {
        if i >= |props| {
          return Fail(MalformedDelay);
        }
        var v := ParseInt(props[i]);
        if v.None? {
          return Fail(MalformedDelay);
        }
        delays[i] := v.value;
        i := i + 1;
      }
      var spec := Delays(props, m);
      assert spec.Ok? && spec.value == delays[..];
      r := Ok(delays[..]);
    }

    /** The sub-circuit a statement speaks of (see Target): the loops of
        loadSubCircuit over the input names and the sub-circuits, then the
        library. */
    method FindTarget(inputsOnly: bool, subType: string, subName: string) returns (r: Result<Option<nat>>)
      ensures r == Target(ScopeOf(Snapshot()), library, inputsOnly, subType, subName)
    {
      var i := 0;
      while i < |inputNames|
        invariant i <= |inputNames| && forall q :: 0 <= q < i ==> inputNames[q] != subName
      {
        if inputNames[i] == subName {
          return Fail(SubcircuitNamedLikeInput(subName));
        }
        i := i + 1;
      }
      var j := 0;
      while j < |internalCircuits|
        invariant j <= |internalCircuits|
        invariant FirstNamed(internalCircuits, subName, 0) == FirstNamed(internalCircuits, subName, j)
      {
        if internalCircuits[j].name == subName {
          if !inputsOnly {
            return Fail(DuplicateSubcircuit(subName));
          }
          return Ok(Some(j));
        }
        j := j + 1;
      }
      if subType !in library {
        return Fail(UnknownCircuitType(subType));
      }
      r := Ok(None);
    }

    /** The input loop of loadSubCircuit over the n inputs of sub-circuit k. */
    method ReadWires(subType: string, subName: string, n: nat) returns (r: Result<(seq<Wire>, bool)>)
      requires lexer.Valid()
      modifies lexer
      ensures Follows(r, Wires(Scope(inputNames, internalCircuits), subType, subName, n, 0, old(lexer.Remaining())), lexer)
    {
      ghost var sc := Scope(inputNames, internalCircuits);
      ghost var s0 := lexer.Remaining();
      var ws: seq<Wire> := [];
      var i := 0;
      WiresAfterNothing(Wires(sc, subType, subName, n, 0, s0));
      while i < n
        invariant lexer.Valid() && i <= n
        invariant Wires(sc, subType, subName, n, 0, s0) == WiresAfter(ws, Wires(sc, subType, subName, n, i, lexer.Remaining()))
        decreases n - i
      {
        var w := ReadWire(subType, subName, n, i);
        if w.Fail? {
          return Fail(w.error);
        }
        if w.value.None? {
          assert ws + [] == ws;
          return Ok((ws, true));
        }
        WiresAfterTwice(ws, [w.value.value], Wires(sc, subType, subName, n, i + 1, lexer.Remaining()));
        ws := ws + [w.value.value];
        i := i + 1;
      }
      assert ws + [] == ws;
      r := Ok((ws, false));
    }

    /** Input i of n of a sub-circuit: the cell or constant it is wired to, or
        None at an ellipsis, which leaves the remaining inputs unbound. */
    method ReadWire(subType: string, subName: string, n: nat, i: nat) returns (r: Result<Option<Wire>>)
      requires lexer.Valid() && i < n
      modifies lexer
      ensures r.Fail? ==> Agrees(r, Wires(Scope(inputNames, internalCircuits), subType, subName, n, i, old(lexer.Remaining())))
      ensures r.Ok? ==> lexer.Valid()
      ensures r.Ok? && r.value.None? ==>
        Wires(Scope(inputNames, internalCircuits), subType, subName, n, i, old(lexer.Remaining())) ==
        Ok((([], true), lexer.Remaining()))
      ensures r.Ok? && r.value.Some? ==>
        Wires(Scope(inputNames, internalCircuits), subType, subName, n, i, old(lexer.Remaining())) ==
        WiresAfter([r.value.value], Wires(Scope(inputNames, internalCircuits), subType, subName, n, i + 1, lexer.Remaining()))
    {
      var token := lexer.GetToken();
      if token.Fail? {
        return Fail(token.error);
      }
      if token.value.None? {
        return Fail(UnexpectedEnd);
      }
      var t := token.value.value;
      if t == "}" {
        return Fail(NotEnoughInputs(subType, subName));
      }
      if t == "..." {
        return Ok(None);
      }
      var b := GetArrayAndIndex(t);
      if b.Fail? {
        return Fail(b.error);
      }
      if b.value.Some? {
        r := Ok(Some(Bound(b.value.value)));
      } else if t == "0" || t == "1" {
        r := Ok(Some(Constant(if t == "1" then 1 else 0)));
      } else {
        r := Fail(InputNotFound(t));
      }
    }

    /** loadSubCircuit: the type and the name of the sub-circuit, its target (a
        new instance of the library's definition, appended before its inputs
        are read, or for circuitInputs an existing one), one wire per input,
        and the closing brace. */
    method LoadSubCircuit(inputsOnly: bool) returns (r: Result<()>)
      requires lexer.Valid() && |internalStates| == |internalCircuits|
      modifies lexer, this`internalCircuits, this`internalStates, this`isCombinatorial
      ensures Performs(r, SubCircuit(old(Snapshot()), library, inputsOnly, old(lexer.Remaining())))
    {
      var h := ReadHeader();
      if h.Fail? {
        return Fail(h.error);
      }
      r := AttachSubCircuit(inputsOnly, h.value.0, h.value.1);
    }

    /** The type and the name that open a sub-circuit statement. */
    method ReadHeader() returns (r: Result<(string, string)>)
      requires lexer.Valid()
      modifies lexer
      ensures Follows(r, Header(old(lexer.Remaining())), lexer)
    {
      var subType := lexer.GetToken();
      if subType.Fail? {
        return Fail(subType.error);
      }
      if subType.value.None? {
        return Fail(UnexpectedEnd);
      }
      var subName := lexer.GetToken();
      if subName.Fail? {
        return Fail(subName.error);
      }
      if subName.value.None? {
        return Fail(UnexpectedEnd);
      }
      r := Ok((subType.value.value, subName.value.value));
    }

    /** loadSubCircuit once the type and the name are read. */
    method AttachSubCircuit(inputsOnly: bool, subType: string, subName: string) returns (r: Result<()>)
      requires lexer.Valid() && |internalStates| == |internalCircuits|
      modifies lexer, this`internalCircuits, this`internalStates, this`isCombinatorial
      ensures Performs(r, Statement(old(Snapshot()), library, inputsOnly, subType, subName, old(lexer.Remaining())))
    {
      ghost var d0 := Snapshot();
      var k := Enlarge(inputsOnly, subType, subName);
      if k.Fail? {
        return Fail(k.error);
      }
      ConnectAfter(d0, internalCircuits, internalStates, k.value, subType, subName, lexer.Remaining());
      r := ConnectInputs(k.value, subType, subName);
    }

    /** The input loop and the closing brace of loadSubCircuit for sub-circuit k. */
    method ConnectInputs(k: nat, subType: string, subName: string) returns (r: Result<()>)
      requires lexer.Valid() && |internalStates| == |internalCircuits| && k < |internalCircuits|
      modifies lexer, this`internalCircuits, this`internalStates, this`isCombinatorial
      ensures Performs(r, Connect(old(Snapshot()), old(internalCircuits), old(internalStates), k,
                                  subType, subName, old(lexer.Remaining())))
    {
      var w := ReadWires(subType, subName, |internalCircuits[k].inputNames|);
      if w.Fail? {
        return Fail(w.error);
      }
      var close := CloseStatement(TooManyInputs(subType, subName));
      if close.Fail? {
        return Fail(close.error);
      }
      Rewire(k, w.value);
      r := Ok(());
    }

    /** Sub-circuit k takes the wires w.0, and `...` (w.1) marks the circuit
        sequential. */
    method Rewire(k: nat, w: (seq<Wire>, bool))
      requires |internalStates| == |internalCircuits| && k < |internalCircuits|
      modifies this`internalCircuits, this`internalStates, this`isCombinatorial
      ensures Snapshot() == Rewired(old(Snapshot()), old(internalCircuits), old(internalStates), k, w)
    {
      var wired := Wired(internalCircuits[k], internalStates[k], w.0);
      internalCircuits := internalCircuits[k := wired.0];
      internalStates := internalStates[k := wired.1];
      isCombinatorial := isCombinatorial && !w.1;
    }

    /** The target of a statement: for a new sub-circuit, the library's
        definition under the name given is appended, with what its cells hold. */
    method Enlarge(inputsOnly: bool, subType: string, subName: string) returns (r: Result<nat>)
      requires |internalStates| == |internalCircuits|
      modifies this`internalCircuits, this`internalStates
      ensures var t := Target(ScopeOf(old(Snapshot())), library, inputsOnly, subType, subName);
        (t.Fail? ==> r == Fail(t.error) && unchanged(this)) &&
        (t.Ok? ==>
           r.Ok? && (internalCircuits, internalStates, r.value) ==
           Enlarged(old(Snapshot()), library, t.value, subType, subName))
    {
      var target := FindTarget(inputsOnly, subType, subName);
      if target.Fail? {
        return Fail(target.error);
      }
      if target.value.Some? {
        return Ok(target.value.value);
      }
      internalCircuits := internalCircuits + [library[subType].0.(name := subName)];
      internalStates := internalStates + [library[subType].1];
      r := Ok(|internalCircuits| - 1);
    }
  }
}
