/** Package `zfs/nvlist`: the XDR nvlist scanner. A stream is a 4-byte
    header, an 8-byte list preamble (`ListMeta`) and then name/value pairs,
    each an 8-byte pair header (`Size`, `DecodedSize`) followed by
    `Size - 8` record bytes holding the name, the type, the element count and
    the value. A pair header of two zeros ends the list.

    The type numbers are those of package `zfs/internal/nvlist`, read as a
    four-byte `int32`; the `Type` declaration of this package is not part of
    this model.

    Reading is modelled as pure functions from the unread bytes to a value
    and the bytes left over, or an error. Go panics and `log.Fatal` end the
    program; they appear here as the errors for which `Aborts` holds. */
module Nvlist {
  import opened Binary
  import opened Wrappers
  import Format
  import T = NvInternal

  /** Why reading stopped. `ShortRead` is `binary.Read` running out of input
      (`io.EOF` or `io.ErrUnexpectedEOF`); `MakeNegative` and `SliceBounds`
      are the runtime panics of `make` with a negative length and of
      slicing with a negative bound; `Fatal` is `log.Fatal`. */
  datatype Error =
    | ShortRead
    | NoConversion(typ: int)
    | MakeNegative
    | SliceBounds
    | Fatal(cause: Error)

  /** The program does not survive this error: it is a panic or a fatal log. */
  predicate Aborts(e: Error)
  {
    e.MakeNegative? || e.SliceBounds? || e.Fatal?
  }

  /** The values the scanner produces: `true` for a boolean pair, `uint64`,
      `string`, a nested `List` and a `[]List`. */
  datatype Value =
    | Bool(b: bool)
    | Uint64(n: nat)
    | Str(s: string)
    | Sub(entries: map<string, Value>)
    | SubArray(lists: seq<map<string, Value>>)

  /** `List`, the decoded nvlist: names to values. */
  type List = map<string, Value>

  /** A value read off the front of the input, and the input left over. */
  datatype Parsed<+A> = Parsed(value: A, rest: Bytes)

  /** `rest` is what is left of `b` after reading some prefix of it. */
  predicate Suffix(rest: Bytes, b: Bytes)
  {
    |rest| <= |b| && rest == b[|b| - |rest|..]
  }

  // ---------------------------------------------------------------------
  // Fixed-width fields.

  /** `ReadType` and `ReadNumElements`: one `int32` in the scanner's byte
      order. */
  function ReadInt32(b: Bytes, o: ByteOrder): (r: Result<Parsed<int>, Error>)
    ensures r.Failure? <==> |b| < 4
    ensures r.Failure? ==> r.error == ShortRead
    ensures r.Success? ==> r.value.rest == b[4..] && -Two31 <= r.value.value < Two31
  {
    if |b| < 4 then Failure(ShortRead) else Success(Parsed(Int32Of(b[..4], o), b[4..]))
  }

  /** The length word that starts an XDR string. */
  function StringLength(b: Bytes, o: ByteOrder): int
    requires |b| >= 4
  {
    Int32Of(b[..4], o)
  }

  /** `ReadString` (also the `String` value decoder): an `int32` length `L`,
      then `align4(L)` bytes of which the first `L` are the string. A length
      whose rounding overflows `int32` makes `make` panic; a length of -3 to
      -1 rounds to 0 and the slice `str[:L]` panics. */
  function ReadString(b: Bytes, o: ByteOrder): (r: Result<Parsed<string>, Error>)
    ensures |b| < 4 ==> r == Failure(ShortRead)
    ensures r == Failure(MakeNegative) <==> |b| >= 4 && Align4(StringLength(b, o)) < 0
    ensures r == Failure(SliceBounds) <==>
      |b| >= 4 && -3 <= StringLength(b, o) < 0
    ensures r.Success? <==>
      |b| >= 4 && 0 <= StringLength(b, o) <= Two31 - 4 && 4 + Align4(StringLength(b, o)) <= |b|
    ensures r.Failure? ==> r.error == ShortRead || r.error == MakeNegative || r.error == SliceBounds
    ensures r.Success? ==>
      var n := StringLength(b, o);
      && |r.value.value| == n
      && r.value.value == BytesToString(b[4..4 + n])
      && n <= Align4(n) < n + 4 && Align4(n) % 4 == 0
      && r.value.rest == b[4 + Align4(n)..]
  {
    var length :- ReadInt32(b, o);
    var padded := Align4(length.value);
    if padded < 0 then Failure(MakeNegative)
    else if |length.rest| < padded then Failure(ShortRead)
    else if length.value < 0 then Failure(SliceBounds)
    else Success(Parsed(BytesToString(length.rest[..length.value]), length.rest[padded..]))
  }

  // ---------------------------------------------------------------------
  // Pairs, values and nested lists.

  /** One decoded pair: its name, type number, element count and value. */
  datatype Pair = Pair(name: string, typ: int, count: int, value: Value)

  /** What `Next` finds: the terminator, or a pair. */
  datatype Step = End(rest: Bytes) | Item(pair: Pair, rest: Bytes)

  /** The two words of the pair header. */
  function PairSize(b: Bytes, o: ByteOrder): int
    requires |b| >= 8
  {
    Int32Of(b[..4], o)
  }

  function DecodedSize(b: Bytes, o: ByteOrder): int
    requires |b| >= 8
  {
    Int32Of(b[4..8], o)
  }

  /** How many bytes a pair with header size `size` occupies: the header and
      the `int32` difference `size - 8`. */
  function PairLength(size: int): (n: int)
    requires -Two31 <= size < Two31
    ensures (n - size) % Two32 == 0
    ensures size >= 8 ==> n == size
    ensures n >= 8 <==> size >= 8 || size < -Two31 + 8
  {
    8 + Int32Wrap(size - 8)
  }

  /** `Scanner.Next` without the scanner: read the pair header; two zero
      words end the list; otherwise read the `Size - 8` record bytes and
      decode the name, type, element count and value from them alone.
      Whatever the value leaves of the record is skipped. */
  function Next(b: Bytes, o: ByteOrder): (r: Result<Step, Error>)
    ensures |b| < 8 ==> r == Failure(ShortRead)
    ensures r.Success? && r.value.End? <==>
      |b| >= 8 && PairSize(b, o) == 0 && DecodedSize(b, o) == 0
    ensures r.Success? && r.value.End? ==> r.value.rest == b[8..]
    ensures r.Success? && r.value.Item? ==>
      var n := PairLength(PairSize(b, o));
      8 <= n <= |b| && r.value.rest == b[n..]
    ensures (|b| >= 8 && !(PairSize(b, o) == 0 && DecodedSize(b, o) == 0)
      && -Two31 + 8 <= PairSize(b, o) < 8) ==> r == Failure(MakeNegative)
    decreases |b|, 0
  {
    if |b| < 8 then Failure(ShortRead)
    else if PairSize(b, o) == 0 && DecodedSize(b, o) == 0 then Success(End(b[8..]))
    else
      var len := Int32Wrap(PairSize(b, o) - 8);
      if len < 0 then Failure(MakeNegative)
      else if |b| - 8 < len then Failure(ShortRead)
      else
        var pair :- ReadRecord(b[8..8 + len], o);
        Success(Item(pair, b[8 + len..]))
  }

  /** The record of one pair: name, type, element count, value. */
  function ReadRecord(record: Bytes, o: ByteOrder): (r: Result<Pair, Error>)
    ensures |record| < 12 ==> r.Failure?
    ensures r.Success? ==>
      && ReadString(record, o).Success?
      && r.value.name == ReadString(record, o).value.value
      && -Two31 <= r.value.typ < Two31 && -Two31 <= r.value.count < Two31
    decreases |record|, 5
  {
    var name :- ReadString(record, o);
    var typ :- ReadInt32(name.rest, o);
    var count :- ReadInt32(typ.rest, o);
    var value :- ReadValue(count.rest, o, typ.value, count.value);
    Success(Pair(name.value, typ.value, count.value, value.value))
  }

  /** `ReadValue`: the decoder `readValueFunc` has for the type, or a
      "no conversion function" error for every type without one. */
  function ReadValue(b: Bytes, o: ByteOrder, t: int, count: int): (r: Result<Parsed<Value>, Error>)
    ensures r.Success? ==> Suffix(r.value.rest, b)
    ensures t == T.Boolean ==> r == Success(Parsed(Bool(true), b))
    ensures t == T.Uint64 ==> (r.Success? <==> |b| >= 8)
    ensures t == T.Uint64 && r.Success? ==>
      r.value.value.Uint64? && r.value.value.n < Two64 && r.value.rest == b[8..]
    ensures t == T.String ==> (r.Success? <==> ReadString(b, o).Success?)
    ensures t == T.String && r.Success? ==>
      r.value == Parsed(Str(ReadString(b, o).value.value), ReadString(b, o).value.rest)
    ensures t == T.NVList && r.Success? ==> r.value.value.Sub?
    ensures t == T.NVListArray && count < 0 ==> r == Failure(MakeNegative)
    ensures t == T.NVListArray && r.Success? ==>
      r.value.value.SubArray? && |r.value.value.lists| == count
    ensures t == T.NVListArray && r.Failure? ==> Aborts(r.error)
    ensures (t != T.Boolean && t != T.Uint64 && t != T.String && t != T.NVList
      && t != T.NVListArray) ==> r == Failure(NoConversion(t))
    decreases |b|, 4
  {
    if t == T.Boolean then Success(Parsed(Bool(true), b))
    else if t == T.Uint64 then
      if |b| < 8 then Failure(ShortRead) else Success(Parsed(Uint64(Uint64Of(b[..8], o)), b[8..]))
    else if t == T.String then
      var s :- ReadString(b, o);
      Success(Parsed(Str(s.value), s.rest))
    else if t == T.NVList then
      var l :- ReadSub(b, o);
      Success(Parsed(Sub(l.value), l.rest))
    else if t == T.NVListArray then
      if count < 0 then Failure(MakeNegative)
      else
        var ls :- ReadListArray(b, o, count);
        Success(Parsed(SubArray(ls.value), ls.rest))
    else Failure(NoConversion(t))
  }

  /** The `NVListArray` decoder: `n` nested lists one after another. An
      error from one of them is fatal; a panic stays a panic. */
  function ReadListArray(b: Bytes, o: ByteOrder, n: nat): (r: Result<Parsed<seq<List>>, Error>)
    ensures r.Success? ==> Suffix(r.value.rest, b) && |r.value.value| == n
    ensures r.Success? && n > 0 ==>
      ReadSub(b, o).Success? && r.value.value[0] == ReadSub(b, o).value.value
    ensures n > 0 && ReadSub(b, o).Failure? ==> r.Failure?
    ensures r.Failure? ==> Aborts(r.error)
    decreases |b|, 3
  {
    if n == 0 then Success(Parsed([], b))
    else
      match ReadSub(b, o)
      case Failure(e) => Failure(if Aborts(e) then e else Fatal(e))
      case Success(first) =>
        var others :- ReadListArray(first.rest, o, n - 1);
        Success(Parsed([first.value] + others.value, others.rest))
  }

  /** `ReadSub`: a nested list, read by a sub-scanner that shares the
      parent's byte order: its `ListMeta`, then pairs up to the terminator. */
  function ReadSub(b: Bytes, o: ByteOrder): (r: Result<Parsed<List>, Error>)
    ensures r.Success? ==> Suffix(r.value.rest, b) && |r.value.rest| <= |b| - 16
    ensures |b| < 8 ==> r == Failure(ShortRead)
    decreases |b|, 2
  {
    var scn := NewSubScanner(b, o);
    if scn.err.Some? then Failure(scn.err.value)
    else
      var pairs :- ScanPairs(scn.input, o);
      Success(Parsed(Fold(pairs.value), pairs.rest))
  }

  /** The `for scn.Next()` loop: pairs up to and including the terminator. */
  function ScanPairs(b: Bytes, o: ByteOrder): (r: Result<Parsed<seq<Pair>>, Error>)
    ensures r.Success? ==> Suffix(r.value.rest, b) && |r.value.rest| <= |b| - 8
    decreases |b|, 1
  {
    var step :- Next(b, o);
    match step
    case End(rest) => Success(Parsed([], rest))
    case Item(p, rest) =>
      var others :- ScanPairs(rest, o);
      Success(Parsed([p] + others.value, others.rest))
  }

  /** `rc[scn.Name()] = scn.Value()` over a sequence of pairs, in order. */
  function Fold(ps: seq<Pair>): (m: List)
    ensures forall k :: k in m ==> exists i :: 0 <= i < |ps| && ps[i].name == k
    ensures |ps| > 0 ==> ps[|ps| - 1].name in m && m[ps[|ps| - 1].name] == ps[|ps| - 1].value
    decreases |ps|
  {
    if ps == [] then map[]
    else
      var last := ps[|ps| - 1];
      Fold(ps[..|ps| - 1])[last.name := last.value]
  }

  /** Later pairs overwrite earlier ones: a name is bound by the fold exactly
      when some pair carries it. */
  lemma {:induction false} FoldKeys(ps: seq<Pair>, k: string)
    ensures k in Fold(ps) <==> exists i :: 0 <= i < |ps| && ps[i].name == k
    decreases |ps|
  {
    if ps != [] {
      var init := ps[..|ps| - 1];
      FoldKeys(init, k);
      if k != ps[|ps| - 1].name {
        if k in Fold(ps) {
          var i :| 0 <= i < |init| && init[i].name == k;
          assert ps[i].name == k;
        }
        if exists i :: 0 <= i < |ps| && ps[i].name == k {
          var i :| 0 <= i < |ps| && ps[i].name == k;
          assert init[i].name == k;
        }
      }
    }
  }

  /** ... and the value bound to a name is the one of its last pair. */
  lemma {:induction false} FoldLastWins(ps: seq<Pair>, i: int)
    requires 0 <= i < |ps|
    requires forall j :: i < j < |ps| ==> ps[j].name != ps[i].name
    ensures ps[i].name in Fold(ps) && Fold(ps)[ps[i].name] == ps[i].value
    decreases |ps|
  {
    if i < |ps| - 1 {
      FoldLastWins(ps[..|ps| - 1], i);
    }
  }

  // ---------------------------------------------------------------------
  // The scanner.

  /** The options `NewScanner` takes. */
  datatype ScanOption = WithByteOrder(order: ByteOrder) | WithoutHeader

  /** The 4-byte nvlist header: encoding, byte order and two reserved bytes. */
  datatype Header = Header(encoding: int, endian: int, reserved1: int, reserved2: int)

  /** The 8-byte preamble of every list: version and flags. */
  datatype ListMeta = ListMeta(version: int, flags: nat)

  /** `Scanner`: the unread input, the options, the header and list preamble
      read so far, the current pair's fields and the sticky error. */
  datatype Scanner = Scanner(
    input: Bytes,
    withHeader: bool,
    order: Option<ByteOrder>,
    header: Header,
    list: ListMeta,
    name: string,
    typ: int,
    count: int,
    value: Option<Value>,
    err: Option<Error>)
  {
    /** A scanner that can still read has a byte order to read with. */
    predicate Valid()
    {
      err.None? ==> order.Some?
    }
  }

  function HeaderOf(b: Bytes): Header
    requires |b| == 4
  {
    Header(b[0] as int, Int8Of(b[1]), Int8Of(b[2]), Int8Of(b[3]))
  }

  function ListMetaOf(b: Bytes, o: ByteOrder): ListMeta
    requires |b| == 8
  {
    ListMeta(Int32Of(b[..4], o), Uint32Of(b[4..], o))
  }

  /** The options applied in order, each one setting a field. */
  function ApplyOptions(s: Scanner, opts: seq<ScanOption>): (r: Scanner)
    ensures r.withHeader <==> s.withHeader && WithoutHeader !in opts
    ensures r.input == s.input && r.header == s.header && r.err == s.err
    decreases |opts|
  {
    if opts == [] then s
    else
      var next := match opts[0]
        case WithByteOrder(o) => s.(order := Some(o))
        case WithoutHeader => s.(withHeader := false);
      ApplyOptions(next, opts[1..])
  }

  /** Whether a scanner built with these options reads the 4-byte header. */
  predicate ReadsHeader(opts: seq<ScanOption>)
  {
    WithoutHeader !in opts
  }

  /** `NewScanner`: apply the options, read the big-endian header unless
      told not to, take the byte order from the header's endian byte (so a
      `WithByteOrder` option never survives, and without a header the zero
      header means little-endian), then read the list preamble. */
  function NewScanner(input: Bytes, opts: seq<ScanOption>): (s: Scanner)
    ensures s.Valid()
    ensures var start := if ReadsHeader(opts) then 12 else 8;
      && (s.err.None? <==> |input| >= start)
      && (s.err.None? ==> s.input == input[start..])
    ensures s.err.Some? ==> s.err.value == ShortRead
    ensures !(ReadsHeader(opts) && |input| < 4) ==>
      (s.order == Some(BigEndian) <==> ReadsHeader(opts) && Int8Of(input[1]) == T.BigEndianValue)
      && (s.order == Some(BigEndian) || s.order == Some(LittleEndian))
  {
    var init := Scanner(input, true, None, Header(0, 0, 0, 0), ListMeta(0, 0), "", 0, 0, None, None);
    var s := ApplyOptions(init, opts);
    if s.withHeader && |input| < 4 then s.(err := Some(ShortRead))
    else
      var header := if s.withHeader then HeaderOf(input[..4]) else s.header;
      var rest := if s.withHeader then input[4..] else input;
      var order := if header.endian == T.BigEndianValue then BigEndian else LittleEndian;
      if |rest| < 8 then s.(header := header, order := Some(order), input := rest, err := Some(ShortRead))
      else s.(header := header, order := Some(order), list := ListMetaOf(rest[..8], order), input := rest[8..])
  }

  /** `NewSubScanner`: a scanner over the same input with the parent's byte
      order, no header, and its list preamble already read. */
  function NewSubScanner(input: Bytes, o: ByteOrder): (s: Scanner)
    ensures s.Valid() && s.order == Some(o) && !s.withHeader
    ensures s.err.None? <==> |input| >= 8
    ensures s.err.Some? ==> s.err.value == ShortRead
    ensures s.err.None? ==> s.input == input[8..]
  {
    var s := Scanner(input, false, Some(o), Header(0, 0, 0, 0), ListMeta(0, 0), "", 0, 0, None, None);
    if |input| < 8 then s.(err := Some(ShortRead))
    else s.(list := ListMetaOf(input[..8], o), input := input[8..])
  }

  /** `Scanner.Next`: false at once on a scanner already in error; otherwise
      one step of `Next` over the unread input, recording the pair or the
      error. */
  function ScannerNext(s: Scanner): (r: (bool, Scanner))
    requires s.Valid()
    ensures r.1.Valid() && r.1.order == s.order
    ensures s.err.Some? ==> r == (false, s)
    ensures r.0 ==> r.1.err.None? && r.1.value.Some? && |r.1.input| < |s.input|
    ensures s.err.None? && !r.0 ==>
      (r.1.err.None? <==> Next(s.input, s.order.value).Success?)
  {
    if s.err.Some? then (false, s)
    else
      match Next(s.input, s.order.value)
      case Failure(e) => (false, s.(err := Some(e)))
      case Success(End(rest)) => (false, s.(input := rest))
      case Success(Item(p, rest)) =>
        (true, s.(input := rest, name := p.name, typ := p.typ, count := p.count, value := Some(p.value)))
  }

  /** The list `Read` returns, over the pure parsers: the scanner's error,
      or the fold of every pair up to the terminator. */
  function ReadSpec(input: Bytes, opts: seq<ScanOption>): Result<List, Error>
  {
    var s := NewScanner(input, opts);
    if s.err.Some? then Failure(s.err.value)
    else
      match ScanPairs(s.input, s.order.value)
      case Failure(e) => Failure(e)
      case Success(pairs) => Success(Fold(pairs.value))
  }

  /** The pairs already folded, in front of what scanning the rest gives. */
  function Prepend(done: seq<Pair>, r: Result<Parsed<seq<Pair>>, Error>): Result<Parsed<seq<Pair>>, Error>
  {
    match r
    case Failure(e) => Failure(e)
    case Success(p) => Success(Parsed(done + p.value, p.rest))
  }

  lemma PrependNothing(r: Result<Parsed<seq<Pair>>, Error>)
    ensures Prepend([], r) == r
  {
    if r.Success? {
      assert [] + r.value.value == r.value.value;
    }
  }

  /** `Read`: a scanner with the caller's options, every pair stored under
      its name while `Next` succeeds, and the scanner's error instead of
      the map if it ended in one. */
  method Read(input: Bytes, opts: seq<ScanOption>) returns (r: Result<List, Error>)
    ensures r == ReadSpec(input, opts)
  {
    var s0 := NewScanner(input, opts);
    var s := s0;
    var rc: List := map[];
    ghost var done: seq<Pair> := [];
    if s0.err.None? {
      PrependNothing(ScanPairs(s0.input, s0.order.value));
    }
    while true
      invariant s.Valid() && s.order == s0.order
      invariant s0.err.Some? ==> s == s0
      invariant s0.err.None? ==> (s.err.None?
        && Prepend(done, ScanPairs(s.input, s.order.value)) == ScanPairs(s0.input, s0.order.value))
      invariant rc == Fold(done)
      decreases |s.input|
    {
      var step := ScannerNext(s);
      if s0.err.None? {
        ScanStep(s, done);
      }
      if !step.0 {
        if step.1.err.Some? {
          r := Failure(step.1.err.value);
        } else {
          r := Success(rc);
        }
        return;
      }
      ghost var p := Pair(step.1.name, step.1.typ, step.1.count, step.1.value.value);
      s := step.1;
      rc := rc[s.name := s.value.value];
      done := done + [p];
    }
  }

  /** One turn of the `Read` loop, in terms of the pairs still to scan. */
  lemma ScanStep(s: Scanner, done: seq<Pair>)
    requires s.Valid() && s.err.None?
    ensures var step := ScannerNext(s);
      step.0 ==>
        Prepend(done + [Pair(step.1.name, step.1.typ, step.1.count, step.1.value.value)],
          ScanPairs(step.1.input, s.order.value))
        == Prepend(done, ScanPairs(s.input, s.order.value))
    ensures var step := ScannerNext(s);
      !step.0 && step.1.err.Some? ==>
        Prepend(done, ScanPairs(s.input, s.order.value)) == Failure(step.1.err.value)
    ensures var step := ScannerNext(s);
      !step.0 && step.1.err.None? ==>
        var whole := Prepend(done, ScanPairs(s.input, s.order.value));
        whole.Success? && whole.value.value == done
  {
    var o := s.order.value;
    match Next(s.input, o)
    case Failure(e) =>
    case Success(End(rest)) =>
      assert done + [] == done;
    case Success(Item(p, rest)) =>
      match ScanPairs(rest, o)
      case Failure(e) =>
      case Success(others) =>
        assert (done + [p]) + others.value == done + ([p] + others.value);
  }

  /** `ValueString` of the scanner's current value: decimal digits for a
      `uint64`, the text itself for a string, a fixed marker otherwise. */
  function ValueString(v: Option<Value>): (r: string)
    ensures v.Some? && v.value.Uint64? ==>
      && Format.IsDigits(r, 10) && Format.ParseDigits(r, 10) == v.value.n
      && |r| > 0 && (r[0] == '0' ==> r == "0")
    ensures v.Some? && v.value.Str? ==> r == v.value.s
    ensures v.None? || !(v.value.Uint64? || v.value.Str?) ==> r == "*unrepresentable*"
  {
    match v
    case Some(Uint64(n)) => Format.FormatUnsigned(n, 10, 0)
    case Some(Str(s)) => s
    case _ => "*unrepresentable*"
  }

  // ---------------------------------------------------------------------
  // The endian byte of this package.

  /** `Endian.ByteOrder`: 1 is big-endian, 0 little-endian, anything else
      has no byte order. */
  function EndianByteOrder(e: int): (r: Option<ByteOrder>)
    requires -128 <= e < 128
    ensures r == Some(BigEndian) <==> e == T.BigEndianValue
    ensures r == Some(LittleEndian) <==> e == T.LittleEndianValue
    ensures r.Some? <==> T.EndianString(e)[0] != '*'
  {
    if e == T.BigEndianValue then Some(BigEndian)
    else if e == T.LittleEndianValue then Some(LittleEndian)
    else None
  }

  // ---------------------------------------------------------------------
  // Writers, and what the readers make of their output. Each writer takes
  // the bytes that follow what it writes, so that every round trip can say
  // exactly what is left over.

  /** The first `|a|` bytes of `a + rest` are `a`, the others `rest`. */
  lemma SplitAt(a: Bytes, rest: Bytes)
    ensures (a + rest)[..|a|] == a && (a + rest)[|a|..] == rest
  {
  }

  function Zeros(n: nat): (z: Bytes)
    ensures |z| == n
  {
    seq(n, _ => 0)
  }

  /** An `int32` field followed by `tail`. */
  lemma Int32FieldRoundTrip(x: int, o: ByteOrder, tail: Bytes)
    requires -Two31 <= x < Two31
    ensures ReadInt32(Int32Bytes(x, o) + tail, o) == Success(Parsed(x, tail))
  {
    SplitAt(Int32Bytes(x, o), tail);
    Int32RoundTrip(x, o);
  }

  /** An XDR string: its `int32` length, its bytes, zeros up to a multiple
      of four, then `tail`. */
  function EncodeString(s: Bytes, o: ByteOrder, tail: Bytes): (b: Bytes)
    requires |s| <= Two31 - 4
    ensures |b| == 4 + Align4(|s|) + |tail|
  {
    Int32Bytes(|s|, o) + (s + (Zeros(Align4(|s|) - |s|) + tail))
  }

  lemma StringRoundTrip(s: Bytes, o: ByteOrder, tail: Bytes)
    requires |s| <= Two31 - 4
    ensures ReadString(EncodeString(s, o, tail), o) == Success(Parsed(BytesToString(s), tail))
  {
    var body := s + (Zeros(Align4(|s|) - |s|) + tail);
    SplitAt(Int32Bytes(|s|, o), body);
    Int32RoundTrip(|s|, o);
    SplitAt(s, Zeros(Align4(|s|) - |s|) + tail);
    SplitAt(Zeros(Align4(|s|) - |s|), tail);
    assert body[Align4(|s|)..] == tail;
  }

  lemma Uint64ValueRoundTrip(n: nat, o: ByteOrder, count: int, tail: Bytes)
    requires n < Two64
    ensures ReadValue(Uint64Bytes(n, o) + tail, o, T.Uint64, count) == Success(Parsed(Uint64(n), tail))
  {
    SplitAt(Uint64Bytes(n, o), tail);
    Uint64RoundTrip(n, o);
  }

  /** The two zero words that end a list, then `tail`. */
  function Terminator(o: ByteOrder, tail: Bytes): (b: Bytes)
    ensures |b| == 8 + |tail|
  {
    Int32Bytes(0, o) + (Int32Bytes(0, o) + tail)
  }

  lemma TerminatorEnds(o: ByteOrder, tail: Bytes)
    ensures Next(Terminator(o, tail), o) == Success(End(tail))
  {
    PairHeaderRoundTrip(0, 0, o, tail);
  }

  /** The record of a pair: name, type, element count, then the value's
      bytes and whatever else the record holds. */
  function EncodeRecord(name: Bytes, typ: int, count: int, payload: Bytes, o: ByteOrder): (b: Bytes)
    requires |name| <= Two31 - 4
    requires -Two31 <= typ < Two31 && -Two31 <= count < Two31
  {
    EncodeString(name, o, Int32Bytes(typ, o) + (Int32Bytes(count, o) + payload))
  }

  /** A whole pair: `Size` covering header and record, the decoded size,
      the record, then `tail`. */
  function EncodePair(record: Bytes, decoded: int, o: ByteOrder, tail: Bytes): (b: Bytes)
    requires 8 + |record| < Two31 && -Two31 <= decoded < Two31
    ensures |b| == 8 + |record| + |tail|
  {
    Int32Bytes(8 + |record|, o) + (Int32Bytes(decoded, o) + (record + tail))
  }

  lemma RecordRoundTrip(name: Bytes, typ: int, count: int, payload: Bytes, o: ByteOrder)
    requires |name| <= Two31 - 4
    requires -Two31 <= typ < Two31 && -Two31 <= count < Two31
    requires ReadValue(payload, o, typ, count).Success?
    ensures ReadRecord(EncodeRecord(name, typ, count, payload, o), o)
      == Success(Pair(BytesToString(name), typ, count, ReadValue(payload, o, typ, count).value.value))
  {
    var rest2 := Int32Bytes(count, o) + payload;
    var rest := Int32Bytes(typ, o) + rest2;
    StringRoundTrip(name, o, rest);
    Int32FieldRoundTrip(typ, o, rest2);
    Int32FieldRoundTrip(count, o, payload);
    ReadRecordFields(EncodeRecord(name, typ, count, payload, o), o, BytesToString(name), rest, typ, rest2, count, payload);
  }

  /** `ReadRecord` is its four reads in a row. */
  lemma ReadRecordFields(record: Bytes, o: ByteOrder, name: string, rest: Bytes, typ: int, rest2: Bytes, count: int, payload: Bytes)
    requires ReadString(record, o) == Success(Parsed(name, rest))
    requires ReadInt32(rest, o) == Success(Parsed(typ, rest2))
    requires ReadInt32(rest2, o) == Success(Parsed(count, payload))
    requires ReadValue(payload, o, typ, count).Success?
    ensures ReadRecord(record, o) == Success(Pair(name, typ, count, ReadValue(payload, o, typ, count).value.value))
  {
  }

  lemma PairHeaderRoundTrip(size: int, decoded: int, o: ByteOrder, rest: Bytes)
    requires -Two31 <= size < Two31 && -Two31 <= decoded < Two31
    ensures var b := Int32Bytes(size, o) + (Int32Bytes(decoded, o) + rest);
      |b| >= 8 && PairSize(b, o) == size && DecodedSize(b, o) == decoded && b[8..] == rest
  {
    var b := Int32Bytes(size, o) + (Int32Bytes(decoded, o) + rest);
    SplitAt(Int32Bytes(size, o), Int32Bytes(decoded, o) + rest);
    SplitAt(Int32Bytes(decoded, o), rest);
    assert b[4..8] == Int32Bytes(decoded, o);
    Int32RoundTrip(size, o);
    Int32RoundTrip(decoded, o);
  }

  /** A written pair reads back as the pair its record holds and leaves
      exactly what followed it, whatever the value leaves unread inside the
      record. */
  lemma PairRoundTrip(record: Bytes, p: Pair, decoded: int, o: ByteOrder, tail: Bytes)
    requires 8 + |record| < Two31 && -Two31 <= decoded < Two31
    requires ReadRecord(record, o) == Success(p)
    ensures Next(EncodePair(record, decoded, o, tail), o) == Success(Item(p, tail))
  {
    var b := EncodePair(record, decoded, o, tail);
    PairHeaderRoundTrip(8 + |record|, decoded, o, record + tail);
    NextReadsRecord(b, o, record, tail, p);
  }

  /** The two layers together: a pair written from its name, type, count
      and value bytes reads back as those fields. */
  lemma WrittenPairRoundTrip(name: Bytes, typ: int, count: int, payload: Bytes, decoded: int, o: ByteOrder, tail: Bytes)
    requires |name| <= Two31 - 4
    requires -Two31 <= typ < Two31 && -Two31 <= count < Two31 && -Two31 <= decoded < Two31
    requires 8 + |EncodeRecord(name, typ, count, payload, o)| < Two31
    requires ReadValue(payload, o, typ, count).Success?
    ensures Next(EncodePair(EncodeRecord(name, typ, count, payload, o), decoded, o, tail), o)
      == Success(Item(Pair(BytesToString(name), typ, count, ReadValue(payload, o, typ, count).value.value), tail))
  {
    var p := Pair(BytesToString(name), typ, count, ReadValue(payload, o, typ, count).value.value);
    RecordRoundTrip(name, typ, count, payload, o);
    PairRoundTrip(EncodeRecord(name, typ, count, payload, o), p, decoded, o, tail);
  }

  lemma NextReadsRecord(b: Bytes, o: ByteOrder, record: Bytes, tail: Bytes, p: Pair)
    requires 8 + |record| < Two31
    requires |b| >= 8 && PairSize(b, o) == 8 + |record| && b[8..] == record + tail
    requires ReadRecord(record, o) == Success(p)
    ensures Next(b, o) == Success(Item(p, tail))
  {
    AfterHeader(b, record, tail);
    NextUnfold(b, o);
  }

  /** A pair whose size is at least the header and fits in the input is
      its record read from the bytes the size covers. */
  lemma NextUnfold(b: Bytes, o: ByteOrder)
    requires |b| >= 8 && 8 <= PairSize(b, o) <= |b|
    ensures Next(b, o) == match ReadRecord(b[8..PairSize(b, o)], o)
      case Success(p) => Success(Item(p, b[PairSize(b, o)..]))
      case Failure(e) => Failure(e)
  {
  }

  lemma AfterHeader(b: Bytes, record: Bytes, tail: Bytes)
    requires |b| >= 8 && b[8..] == record + tail
    ensures b[8..8 + |record|] == record && b[8 + |record|..] == tail
  {
    SplitAt(record, tail);
  }

  /** A pair as written: its record, the pair that record reads as, and
      the decoded size put in the header. */
  datatype Written = Written(record: Bytes, pair: Pair, decoded: int)

  /** Every record fits an `int32` size and reads as its pair. */
  predicate WellWritten(ws: seq<Written>, o: ByteOrder)
  {
    forall i :: 0 <= i < |ws| ==>
      && 8 + |ws[i].record| < Two31 && -Two31 <= ws[i].decoded < Two31
      && ReadRecord(ws[i].record, o) == Success(ws[i].pair)
  }

  /** The pairs one after another, then the terminator, then `tail`. */
  function EncodePairs(ws: seq<Written>, o: ByteOrder, tail: Bytes): (b: Bytes)
    requires WellWritten(ws, o)
  {
    if ws == [] then Terminator(o, tail)
    else EncodePair(ws[0].record, ws[0].decoded, o, EncodePairs(ws[1..], o, tail))
  }

  function PairsOf(ws: seq<Written>): (ps: seq<Pair>)
    ensures |ps| == |ws|
  {
    if ws == [] then [] else [ws[0].pair] + PairsOf(ws[1..])
  }

  /** The scanning loop reads back every written pair, in order, and stops
      right after the terminator. */
  lemma {:induction false} PairsRoundTrip(ws: seq<Written>, o: ByteOrder, tail: Bytes)
    requires WellWritten(ws, o)
    ensures ScanPairs(EncodePairs(ws, o, tail), o) == Success(Parsed(PairsOf(ws), tail))
  {
    if ws == [] {
      TerminatorEnds(o, tail);
    } else {
      var rest := EncodePairs(ws[1..], o, tail);
      PairRoundTrip(ws[0].record, ws[0].pair, ws[0].decoded, o, rest);
      PairsRoundTrip(ws[1..], o, tail);
    }
  }

  /** A nested list, its 8-byte preamble followed by written pairs, reads
      back as the fold of those pairs. */
  lemma SubListRoundTrip(meta: Bytes, ws: seq<Written>, o: ByteOrder, tail: Bytes)
    requires |meta| == 8 && WellWritten(ws, o)
    ensures ReadSub(meta + EncodePairs(ws, o, tail), o) == Success(Parsed(Fold(PairsOf(ws)), tail))
  {
    var b := meta + EncodePairs(ws, o, tail);
    assert b[8..] == EncodePairs(ws, o, tail);
    PairsRoundTrip(ws, o, tail);
  }

  /** An `NVList` value is exactly such a nested list. */
  lemma NestedValueRoundTrip(meta: Bytes, ws: seq<Written>, o: ByteOrder, count: int, tail: Bytes)
    requires |meta| == 8 && WellWritten(ws, o)
    ensures ReadValue(meta + EncodePairs(ws, o, tail), o, T.NVList, count)
      == Success(Parsed(Sub(Fold(PairsOf(ws))), tail))
  {
    SubListRoundTrip(meta, ws, o, tail);
  }

  /** A nested list as written: its 8-byte preamble and its pairs. */
  datatype WrittenList = WrittenList(meta: Bytes, pairs: seq<Written>)

  predicate WellWrittenLists(ls: seq<WrittenList>, o: ByteOrder)
  {
    forall i :: 0 <= i < |ls| ==> |ls[i].meta| == 8 && WellWritten(ls[i].pairs, o)
  }

  /** The nested lists one after another, then `tail`. */
  function EncodeLists(ls: seq<WrittenList>, o: ByteOrder, tail: Bytes): (b: Bytes)
    requires WellWrittenLists(ls, o)
  {
    if ls == [] then tail
    else ls[0].meta + EncodePairs(ls[0].pairs, o, EncodeLists(ls[1..], o, tail))
  }

  /** The lists the written ones stand for. */
  function ListsOf(ls: seq<WrittenList>): (r: seq<List>)
    ensures |r| == |ls|
  {
    if ls == [] then [] else [Fold(PairsOf(ls[0].pairs))] + ListsOf(ls[1..])
  }

  /** The `NVListArray` loop reads back every written list, in order, and
      stops right after the last one. */
  lemma {:induction false} ListArrayRoundTrip(ls: seq<WrittenList>, o: ByteOrder, tail: Bytes)
    requires WellWrittenLists(ls, o)
    ensures ReadListArray(EncodeLists(ls, o, tail), o, |ls|) == Success(Parsed(ListsOf(ls), tail))
  {
    if ls != [] {
      var rest := EncodeLists(ls[1..], o, tail);
      SubListRoundTrip(ls[0].meta, ls[0].pairs, o, rest);
      ListArrayRoundTrip(ls[1..], o, tail);
    }
  }

  /** An `NVListArray` value whose element count is the number of written
      lists is exactly those lists. */
  lemma ListArrayValueRoundTrip(ls: seq<WrittenList>, o: ByteOrder, tail: Bytes)
    requires WellWrittenLists(ls, o) && |ls| < Two31
    ensures ReadValue(EncodeLists(ls, o, tail), o, T.NVListArray, |ls|)
      == Success(Parsed(SubArray(ListsOf(ls)), tail))
  {
    ListArrayRoundTrip(ls, o, tail);
  }

  /** A `String` value is read by the `ReadString` rule: a written string
      reads back as itself and leaves the tail. */
  lemma StringValueRoundTrip(s: Bytes, o: ByteOrder, tail: Bytes, count: int)
    requires |s| <= Two31 - 4
    ensures ReadValue(EncodeString(s, o, tail), o, T.String, count)
      == Success(Parsed(Str(BytesToString(s)), tail))
  {
    StringRoundTrip(s, o, tail);
  }

  /** `Read` of a stream holding written pairs: the byte order is the one
      the header names (little-endian without a header), and the result is
      the fold of the pairs. */
  lemma ReadRoundTrip(pre: Bytes, ws: seq<Written>, o: ByteOrder, tail: Bytes, opts: seq<ScanOption>)
    requires |pre| == if ReadsHeader(opts) then 12 else 8
    requires ReadsHeader(opts) ==> (o == BigEndian <==> Int8Of(pre[1]) == T.BigEndianValue)
    requires !ReadsHeader(opts) ==> o == LittleEndian
    requires WellWritten(ws, o)
    ensures ReadSpec(pre + EncodePairs(ws, o, tail), opts) == Success(Fold(PairsOf(ws)))
  {
    var b := pre + EncodePairs(ws, o, tail);
    assert b[|pre|..] == EncodePairs(ws, o, tail);
    assert b[1] == pre[1];
    PairsRoundTrip(ws, o, tail);
  }

  /** A stream whose first pair header is the terminator reads as the empty
      list. */
  lemma ReadTerminatorFirst(input: Bytes, opts: seq<ScanOption>)
    requires NewScanner(input, opts).err.None?
    requires var s := NewScanner(input, opts);
      |s.input| >= 8 && PairSize(s.input, s.order.value) == 0 && DecodedSize(s.input, s.order.value) == 0
    ensures ReadSpec(input, opts) == Success(map[])
  {
  }
}
