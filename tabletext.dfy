/** The text of a `truthTable` section, as loadTruthTable reads it: 2^n rows, each
    the n input bits of a row number then the m output bits of its word, least
    significant bit first, then tokens up to a closing brace.  Bits are the
    characters '0' and '1' of the tokens, however the tokens split them; other
    characters are passed over. */
module TableText {
  import opened Bits
  import opened JavaLang
  import opened Errors
  import opened Circuits
  import opened Lexer

  /** The tokens after the first. */
  function Tail(s: Stream): Stream
    requires s.tokens != []
  {
    Stream(s.tokens[1..], s.illegal)
  }

  /** How the end of the tokens fails: an illegal repeater, or the given error. */
  function EndError(s: Stream, e: Error): Error {
    if s.illegal then IllegalRepeater("") else e
  }

  /** Scanning token t from bit j of v on: a '1' sets bit j and moves to the next
      bit, a '0' only moves on, and any other character is passed over. */
  function ScanBits(t: string, v: nat, j: nat): (r: (nat, nat))
    ensures r.1 >= j
    decreases |t|
  {
    if t == [] then (v, j)
    else if t[0] == '1' then ScanBits(t[1..], SetBit(v, j), j + 1)
    else if t[0] == '0' then ScanBits(t[1..], v, j + 1)
    else ScanBits(t[1..], v, j)
  }

  /** The character loop of loadTruthTable over one token. */
  method ScanToken(t: string, v: nat, j: nat) returns (v': nat, j': nat)
    ensures (v', j') == ScanBits(t, v, j)
  {
    v', j' := v, j;
    var k := 0;
    while k < |t|
      invariant 0 <= k <= |t|
      invariant ScanBits(t[k..], v', j') == ScanBits(t, v, j)
    {
      assert t[k..][1..] == t[k + 1..];
      if t[k] == '1' {
        v' := SetBit(v', j');
        j' := j' + 1;
      } else if t[k] == '0' {
        j' := j' + 1;
      }
      k := k + 1;
    }
    assert t[k..] == [];
  }

  /** One field of a row: whole tokens are taken until `count` bits have been
      seen; the tokens running out first fails. */
  function Field(s: Stream, count: nat, v: nat, j: nat): (r: Result<(nat, Stream)>)
    ensures r.Ok? ==> |r.value.1.tokens| <= |s.tokens|
    decreases |s.tokens|
  {
    if j >= count then Ok((v, s))
    else if s.tokens == [] then Fail(EndError(s, IncompleteTruthTable))
    else
      var next := ScanBits(s.tokens[0], v, j);
      Field(Tail(s), count, next.0, next.1)
  }

  /** Rows r .. 2^n - 1: each stores the word of its output bits at the row number
      of its input bits, which must lie inside the table. */
  function Rows(s: Stream, n: nat, m: nat, r: nat, tt: seq<nat>): (res: Result<(seq<nat>, Stream)>)
    requires |tt| == Pow2(n) && r <= Pow2(n)
    ensures res.Ok? ==> |res.value.1.tokens| <= |s.tokens|
    decreases Pow2(n) - r
  {
    if r == Pow2(n) then Ok((tt, s))
    else
      var row :- Field(s, n, 0, 0);
      var word :- Field(row.1, m, 0, 0);
      if row.0 >= |tt| then Fail(RowOutOfRange(row.0))
      else Rows(word.1, n, m, r + 1, tt[row.0 := word.0])
  }

  /** Everything up to and including the next closing brace is skipped. */
  function Close(s: Stream): (r: Result<((), Stream)>)
    ensures r.Ok? ==> |r.value.1.tokens| < |s.tokens|
    decreases |s.tokens|
  {
    if s.tokens == [] then Fail(EndError(s, MissingBraceAfterTruthTable))
    else if s.tokens[0] == "}" then Ok(((), Tail(s)))
    else Close(Tail(s))
  }

  /** A table of 2^n zero words. */
  function Zeros(n: nat): (tt: seq<nat>)
    ensures |tt| == Pow2(n)
  {
    seq(Pow2(n), _ => 0)
  }

  /** loadTruthTable for n inputs and m outputs. */
  function Table(s: Stream, n: nat, m: nat): (r: Result<(seq<nat>, Stream)>)
    ensures r.Ok? ==> |r.value.1.tokens| < |s.tokens|
  {
    if n > MaxRowInputs then Fail(TableTooLarge)
    else
      var rows :- Rows(s, n, m, 0, Zeros(n));
      var rest :- Close(rows.1);
      Ok((rows.0, rest.1))
  }

  /** A table read has one word per row. */
  lemma {:induction false} RowsSize(s: Stream, n: nat, m: nat, r: nat, tt: seq<nat>)
    requires |tt| == Pow2(n) && r <= Pow2(n)
    ensures Rows(s, n, m, r, tt).Ok? ==> |Rows(s, n, m, r, tt).value.0| == Pow2(n)
    decreases Pow2(n) - r
  {
    if r < Pow2(n) {
      var row := Field(s, n, 0, 0);
      if row.Ok? {
        var word := Field(row.value.1, m, 0, 0);
        if word.Ok? && row.value.0 < |tt| {
          RowsSize(word.value.1, n, m, r + 1, tt[row.value.0 := word.value.0]);
        }
      }
    }
  }

  /** The count bits of v, least significant first, one token per bit. */
  function BitTokens(v: nat, count: nat): (ts: seq<string>)
    ensures |ts| == count
  {
    seq(count, j requires 0 <= j < count => if Bit(v, j) == 1 then "1" else "0")
  }

  /** Rows r .. |tt| - 1 of a table written out: each row's number, then its word. */
  function TableTokens(tt: seq<nat>, n: nat, m: nat, r: nat): seq<string>
    decreases |tt| - r
  {
    if r >= |tt| then [] else BitTokens(r, n) + BitTokens(tt[r], m) + TableTokens(tt, n, m, r + 1)
  }

  /** One bit token moves the packed prefix of the bits on by one bit. */
  lemma ScanOne(bits: seq<int>, j: nat)
    requires AllBits(bits) && j < |bits| <= WordBits
    ensures ScanBits(if bits[j] == 1 then "1" else "0", Pack(bits[..j]), j) ==
      (Pack(bits[..j + 1]), j + 1)
  {
    assert bits[..j + 1] == bits[..j] + [bits[j]];
    PackSnoc(bits[..j], bits[j]);
    if bits[j] == 1 {
      SetBitSnoc(bits[..j]);
    }
  }

  /** Reading the bit tokens of v from bit j on gives v back and stops right after them. */
  lemma {:induction false} FieldOfBits(v: nat, count: nat, j: nat, more: seq<string>, illegal: bool)
    requires v < Pow2(count) && count <= WordBits && j <= count
    ensures Field(Stream(BitTokens(v, count)[j..] + more, illegal), count, Pack(Unpack(v, count)[..j]), j)
      == Ok((v, Stream(more, illegal)))
    decreases count - j
  {
    var bits := Unpack(v, count);
    var s := Stream(BitTokens(v, count)[j..] + more, illegal);
    if j == count {
      assert bits[..j] == bits;
      PackUnpack(v, count);
      assert s.tokens == more;
    } else {
      ScanOne(bits, j);
      assert s.tokens[0] == if bits[j] == 1 then "1" else "0";
      assert Tail(s).tokens == BitTokens(v, count)[j + 1..] + more;
      FieldOfBits(v, count, j + 1, more, illegal);
    }
  }

  /** Reading a field written as bit tokens gives its value. */
  lemma FieldWritten(v: nat, count: nat, more: seq<string>, illegal: bool)
    requires v < Pow2(count) && count <= WordBits
    ensures Field(Stream(BitTokens(v, count) + more, illegal), count, 0, 0) == Ok((v, Stream(more, illegal)))
  {
    FieldOfBits(v, count, 0, more, illegal);
    assert BitTokens(v, count)[0..] == BitTokens(v, count);
    assert Unpack(v, count)[..0] == [];
  }

  /** The words read so far: rows before r hold theirs, the rest are still zero. */
  function Partial(tt: seq<nat>, r: nat): seq<nat>
    requires r <= |tt|
  {
    tt[..r] + seq(|tt| - r, _ => 0)
  }

  /** A row read from s, with its number inside the table, leaves the rows after it to read. */
  lemma RowStep(s: Stream, n: nat, m: nat, r: nat, tt: seq<nat>, row: nat, word: nat, rest: Stream)
    requires |tt| == Pow2(n) && r < Pow2(n) && row < Pow2(n)
    requires Field(s, n, 0, 0).Ok? && Field(s, n, 0, 0).value.0 == row
    requires Field(Field(s, n, 0, 0).value.1, m, 0, 0) == Ok((word, rest))
    ensures Rows(s, n, m, r, tt) == Rows(rest, n, m, r + 1, tt[row := word])
  {
  }

  /** The tokens of row r come first. */
  lemma RowTokens(tt: seq<nat>, n: nat, m: nat, r: nat, more: seq<string>)
    requires r < |tt|
    ensures TableTokens(tt, n, m, r) + more ==
      BitTokens(r, n) + (BitTokens(tt[r], m) + (TableTokens(tt, n, m, r + 1) + more))
  {
  }

  /** Storing row r's word moves the partial table on by a row. */
  lemma PartialStep(tt: seq<nat>, r: nat)
    requires r < |tt|
    ensures Partial(tt, r)[r := tt[r]] == Partial(tt, r + 1)
  {
    assert Partial(tt, r)[r := tt[r]] == tt[..r + 1] + seq(|tt| - r - 1, _ => 0);
  }

  lemma {:induction false} RowsWritten(tt: seq<nat>, n: nat, m: nat, r: nat, more: seq<string>, illegal: bool)
    requires n <= MaxRowInputs && m <= WordBits && |tt| == Pow2(n) && r <= |tt|
    requires forall q :: 0 <= q < |tt| ==> tt[q] < Pow2(m)
    ensures Rows(Stream(TableTokens(tt, n, m, r) + more, illegal), n, m, r, Partial(tt, r)) ==
      Ok((tt, Stream(more, illegal)))
    decreases |tt| - r
  {
    var s := Stream(TableTokens(tt, n, m, r) + more, illegal);
    if r == |tt| {
      assert Partial(tt, r) == tt;
      assert s.tokens == more;
    } else {
      var rest := TableTokens(tt, n, m, r + 1) + more;
      RowTokens(tt, n, m, r, more);
      FieldWritten(r, n, BitTokens(tt[r], m) + rest, illegal);
      FieldWritten(tt[r], m, rest, illegal);
      RowStep(s, n, m, r, Partial(tt, r), r, tt[r], Stream(rest, illegal));
      PartialStep(tt, r);
      RowsWritten(tt, n, m, r + 1, more, illegal);
    }
  }

  /** Round trip: a table of 2^n words below 2^m, written out row by row and closed
      by a brace, is read back as that table, and reading stops after the brace. */
  lemma TableWritten(tt: seq<nat>, n: nat, m: nat, more: seq<string>, illegal: bool)
    requires n <= MaxRowInputs && m <= WordBits && |tt| == Pow2(n)
    requires forall q :: 0 <= q < |tt| ==> tt[q] < Pow2(m)
    ensures Table(Stream(TableTokens(tt, n, m, 0) + ["}"] + more, illegal), n, m) ==
      Ok((tt, Stream(more, illegal)))
  {
    assert Partial(tt, 0) == Zeros(n);
    RowsWritten(tt, n, m, 0, ["}"] + more, illegal);
    assert TableTokens(tt, n, m, 0) + ["}"] + more == TableTokens(tt, n, m, 0) + (["}"] + more);
    assert Close(Stream(["}"] + more, illegal)) == Ok(((), Stream(more, illegal)));
  }
}
