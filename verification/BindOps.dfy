/** dyld.rs `parse_bind_ops`: the register machine behind the bind, lazy-bind and weak-bind tables. */
module BindOps {
  import opened Words
  import opened MachoError
  import opened Leb128
  import opened Text

  datatype BindKind = Bind | LazyBind | WeakBind

  datatype BindEntry = BindEntry(segmentIndex: u8, segmentOffset: u64, libOrdinal: i64, symbol: Str,
                                 flags: u8, addend: i64, bindType: u8, kind: BindKind)

  /** The interpreter's registers. */
  datatype Regs = Regs(segIndex: u8, segOffset: u64, ordinal: i64, symbol: Str, flags: u8, addend: i64, bindType: u8) {
    function Record(kind: BindKind): BindEntry {
      BindEntry(segIndex, segOffset, ordinal, symbol, flags, addend, bindType, kind)
    }

    function Skip(delta: u64): Regs {
      this.(segOffset := WrappingAdd(segOffset, delta))
    }
  }

  const INITIAL: Regs := Regs(0, 0, 0, [], 0, 0, 1)

  // ----- instructions and their meaning -----

  datatype Op =
    | SetOrdinalImm(imm: u8)
    | SetOrdinalUleb(ordinal: u64)
    | SetSpecial(imm: u8)
    | SetSymbol(imm: u8, symbol: Str)
    | SetType(imm: u8)
    | SetAddend(addend: i64)
    | SetSegment(imm: u8, offset: u64)
    | AddAddr(delta: u64)
    | DoBind
    | DoBindAddAddr(delta: u64)
    | DoBindScaled(imm: u8)
    | DoBindTimes(count: u64, skip: u64)

  /** `imm as i8 | !0x0f`, and 0 for 0. */
  function Special(imm: u8): i64
    requires imm < 16
  {
    if imm == 0 then 0 else imm as int - 16
  }

  predicate Nibbles(op: Op) {
    match op
    case SetOrdinalImm(imm) => imm < 16
    case SetSpecial(imm) => imm < 16
    case SetSymbol(imm, _) => imm < 16
    case SetType(imm) => imm < 16
    case SetSegment(imm, _) => imm < 16
    case DoBindScaled(imm) => imm < 16
    case _ => true
  }

  /** The registers after an instruction, and the records it emits. */
  datatype Effect = Effect(regs: Regs, out: seq<BindEntry>)

  function Burst(r: Regs, count: nat, skip: u64, kind: BindKind): Effect
    decreases count
  {
    if count == 0 then Effect(r, [])
    else
      var rest := Burst(r.Skip(8).Skip(skip), count - 1, skip, kind);
      Effect(rest.regs, [r.Record(kind)] + rest.out)
  }

  function Apply(op: Op, r: Regs, kind: BindKind): Effect
    requires Nibbles(op)
  {
    match op
    case SetOrdinalImm(imm) => Effect(r.(ordinal := imm), [])
    case SetOrdinalUleb(v) => Effect(r.(ordinal := AsI64(v)), [])
    case SetSpecial(imm) => Effect(r.(ordinal := Special(imm)), [])
    case SetSymbol(imm, name) => Effect(r.(flags := imm, symbol := name), [])
    case SetType(imm) => Effect(r.(bindType := imm), [])
    case SetAddend(v) => Effect(r.(addend := v), [])
    case SetSegment(imm, off) => Effect(r.(segIndex := imm, segOffset := off), [])
    case AddAddr(d) => Effect(r.Skip(d), [])
    case DoBind => Effect(r.Skip(8), [r.Record(kind)])
    case DoBindAddAddr(d) => Effect(r.Skip(8).Skip(d), [r.Record(kind)])
    case DoBindScaled(imm) => Effect(r.Skip(8 + imm as int * 8), [r.Record(kind)])
    case DoBindTimes(count, skip) => Burst(r, count, skip, kind)
  }

  /** A decoded instruction with its length, the end of the program, or a failed operand read. */
  datatype Fetch = Stop | Fail(error: Error) | Fetched(op: Op, len: nat)

  function FetchUleb(s: Bytes, make: u64 -> Op): Fetch {
    match DecodeUleb(s)
    case Err(e) => Fail(e)
    case Ok(d) => Fetched(make(d.value), 1 + d.len)
  }

  function FetchOp(s: Bytes): (f: Fetch)
    requires s != []
    ensures f.Fetched? ==> 0 < f.len
  {
    var imm, args := s[0] % 0x10, s[1..];
    match s[0] / 0x10
    case 1 => Fetched(SetOrdinalImm(imm), 1)
    case 2 => FetchUleb(args, (v: u64) => SetOrdinalUleb(v))
    case 3 => Fetched(SetSpecial(imm), 1)
    case 4 => (match DecodeCString(args)
               case Err(e) => Fail(e)
               case Ok(d) => Fetched(SetSymbol(imm, d.value), 1 + d.len))
    case 5 => Fetched(SetType(imm), 1)
    case 6 => (match DecodeSleb(args)
               case Err(e) => Fail(e)
               case Ok(d) => Fetched(SetAddend(d.value), 1 + d.len))
    case 7 => FetchUleb(args, (v: u64) => SetSegment(imm, v))
    case 8 => FetchUleb(args, (v: u64) => AddAddr(v))
    case 9 => Fetched(DoBind, 1)
    case 10 => FetchUleb(args, (v: u64) => DoBindAddAddr(v))
    case 11 => Fetched(DoBindScaled(imm), 1)
    case 12 => (match DecodeUleb(args)
                case Err(e) => Fail(e)
                case Ok(d) =>
                  match DecodeUleb(Tail(args, d.len))
                  case Err(e) => Fail(e)
                  case Ok(d') => Fetched(DoBindTimes(d.value, d'.value), 1 + d.len + d'.len))
    case _ => Stop
  }

  lemma FetchedFits(s: Bytes)
    requires s != [] && FetchOp(s).Fetched?
    ensures FetchOp(s).len <= |s| && Nibbles(FetchOp(s).op)
  {
    hide DecodeUleb, DecodeSleb, DecodeCString, ValidUtf8;
  }

  function Prepend(out: seq<BindEntry>, r: Result<seq<BindEntry>, Error>): Result<seq<BindEntry>, Error> {
    match r
    case Ok(rest) => Ok(out + rest)
    case Err(e) => Err(e)
  }

  /** Running the rest `s` of a program from registers `r`: all its records, or the first error. */
  function Exec(s: Bytes, r: Regs, kind: BindKind): Result<seq<BindEntry>, Error>
    decreases |s|
  {
    if s == [] then Ok([])
    else
      match FetchOp(s)
      case Stop => Ok([])
      case Fail(e) => Err(e)
      case Fetched(op, len) =>
        FetchedFits(s);
        var effect := Apply(op, r, kind);
        Prepend(effect.out, Exec(s[len..], effect.regs, kind))
  }

  // ----- the interpreter -----

  lemma ExecStep(s: Bytes, r: Regs, kind: BindKind)
    requires s != []
    ensures FetchOp(s).Stop? ==> Exec(s, r, kind) == Ok([])
    ensures FetchOp(s).Fail? ==> Exec(s, r, kind) == Err(FetchOp(s).error)
    ensures FetchOp(s).Fetched? ==>
      && FetchOp(s).len <= |s| && Nibbles(FetchOp(s).op)
      && Exec(s, r, kind)
         == Prepend(Apply(FetchOp(s).op, r, kind).out, Exec(s[FetchOp(s).len..], Apply(FetchOp(s).op, r, kind).regs, kind))
  {
    if FetchOp(s).Fetched? {
      FetchedFits(s);
    }
  }

  lemma ExecEnd(r: Regs, kind: BindKind)
    ensures Exec([], r, kind) == Ok([])
  {
  }

  lemma PrependTwice(a: seq<BindEntry>, b: seq<BindEntry>, r: Result<seq<BindEntry>, Error>)
    ensures Prepend(a, Prepend(b, r)) == Prepend(a + b, r)
    ensures Prepend([], r) == r
  {
    if r.Ok? {
      assert a + (b + r.value) == (a + b) + r.value;
      assert [] + r.value == r.value;
    }
  }

  /** One turn of the loop: an instruction fetched at `off`, its records pushed, its registers set. */
  lemma Turn(data: Bytes, kind: BindKind, off: nat, r: Regs, out: seq<BindEntry>, op: Op, next: nat)
    requires off < |data| && Exec(data, INITIAL, kind) == Prepend(out, Exec(data[off..], r, kind))
    requires off <= next && FetchOp(data[off..]) == Fetched(op, next - off)
    ensures off < next <= |data| && Nibbles(op)
    ensures Exec(data, INITIAL, kind)
         == Prepend(out + Apply(op, r, kind).out, Exec(data[next..], Apply(op, r, kind).regs, kind))
  {
    hide FetchOp, Apply;
    ExecStep(data[off..], r, kind);
    assert data[off..][next - off..] == data[next..];
    PrependTwice(out, Apply(op, r, kind).out, Exec(data[next..], Apply(op, r, kind).regs, kind));
  }

  method ReadUlebOp(data: Bytes, off: nat, ghost make: u64 -> Op) returns (r: Result<u64, Error>, next: nat)
    requires off <= |data|
    ensures r.Ok? ==> off <= next
    ensures FetchUleb(data[off..], make) == if r.Ok? then Fetched(make(r.value), next - off + 1) else Fail(r.error)
  {
    hide DecodeUleb;
    r, next := ReadUleb128(data, off);
  }

  /** The opcode byte and its operands: the reading half of the interpreter's `match`. */
  method ReadOp(data: Bytes, start: nat) returns (f: Fetch)
    requires start < |data|
    ensures f == FetchOp(data[start..])
  {
    hide DecodeUleb, DecodeSleb, DecodeCString, FetchUleb;
    var imm, opcode, off := data[start] % 0x10, data[start] / 0x10, start + 1;
    assert data[start..][1..] == data[off..];
    match opcode {
      case 1 => f := Fetched(SetOrdinalImm(imm), 1);
      case 2 =>
        var v, next := ReadUlebOp(data, off, (v: u64) => SetOrdinalUleb(v));
        f := if v.Err? then Fail(v.error) else Fetched(SetOrdinalUleb(v.value), next - start);
      case 3 => f := Fetched(SetSpecial(imm), 1);
      case 4 =>
        var name, next := ReadCString(data, off);
        f := if name.Err? then Fail(name.error) else Fetched(SetSymbol(imm, name.value), next - start);
      case 5 => f := Fetched(SetType(imm), 1);
      case 6 =>
        var v, next := ReadSleb128(data, off);
        f := if v.Err? then Fail(v.error) else Fetched(SetAddend(v.value), next - start);
      case 7 =>
        var v, next := ReadUlebOp(data, off, (v: u64) => SetSegment(imm, v));
        f := if v.Err? then Fail(v.error) else Fetched(SetSegment(imm, v.value), next - start);
      case 8 =>
        var v, next := ReadUlebOp(data, off, (v: u64) => AddAddr(v));
        f := if v.Err? then Fail(v.error) else Fetched(AddAddr(v.value), next - start);
      case 9 => f := Fetched(DoBind, 1);
      case 10 =>
        var v, next := ReadUlebOp(data, off, (v: u64) => DoBindAddAddr(v));
        f := if v.Err? then Fail(v.error) else Fetched(DoBindAddAddr(v.value), next - start);
      case 11 => f := Fetched(DoBindScaled(imm), 1);
      case 12 =>
        var count, afterCount := ReadUleb128(data, off);
        if count.Err? {
          return Fail(count.error);
        }
        var skip, next := ReadUleb128(data, afterCount);
        f := if skip.Err? then Fail(skip.error) else Fetched(DoBindTimes(count.value, skip.value), next - start);
      case _ => f := Stop;
    }
  }

  /** The executing half of the `match`: registers `r` and records `out` after one instruction. */
  method Execute(op: Op, r0: Regs, kind: BindKind, out0: seq<BindEntry>) returns (out: seq<BindEntry>, r: Regs)
    requires Nibbles(op)
    ensures r == Apply(op, r0, kind).regs && out == out0 + Apply(op, r0, kind).out
  {
    out, r := out0, r0;
    match op {
      case SetOrdinalImm(imm) => r := r.(ordinal := imm);
      case SetOrdinalUleb(v) => r := r.(ordinal := AsI64(v));
      case SetSpecial(imm) => r := r.(ordinal := if imm == 0 then 0 else imm as int - 16);
      case SetSymbol(imm, name) => r := r.(flags := imm, symbol := name);
      case SetType(imm) => r := r.(bindType := imm);
      case SetAddend(v) => r := r.(addend := v);
      case SetSegment(imm, v) => r := r.(segIndex := imm, segOffset := v);
      case AddAddr(d) => r := r.Skip(d);
      case DoBind =>
        out := out + [r.Record(kind)];
        r := r.Skip(8);
      case DoBindAddAddr(d) =>
        out := out + [r.Record(kind)];
        r := r.Skip(8).Skip(d);
      case DoBindScaled(imm) =>
        out := out + [r.Record(kind)];
        r := r.Skip(8 + imm as int * 8);
      case DoBindTimes(count, skip) =>
        out, r := BindTimes(r, count, skip, kind, out);
    }
  }

  /** The loop over instructions; `r` holds the registers. */
  method ParseBindOps(data: Bytes, kind: BindKind) returns (res: Result<seq<BindEntry>, Error>)
    ensures res == Exec(data, INITIAL, kind)
  {
    hide Exec, FetchOp, Apply;
    var out: seq<BindEntry>, off, r := [], 0, INITIAL;
    assert data[0..] == data;
    PrependTwice([], [], Exec(data, INITIAL, kind));
    while off < |data|
      invariant 0 <= off <= |data|
      invariant Exec(data, INITIAL, kind) == Prepend(out, Exec(data[off..], r, kind))
      decreases |data| - off
    {
      var f := ReadOp(data, off);
      ExecStep(data[off..], r, kind);
      match f {
        case Stop =>
          assert out + [] == out;
          return Ok(out);
        case Fail(e) =>
          return Err(e);
        case Fetched(op, len) =>
          Turn(data, kind, off, r, out, op, off + len);
          out, r := Execute(op, r, kind, out);
          off := off + len;
      }
    }
    ExecEnd(r, kind);
    assert data[off..] == [] && out + [] == out;
    res := Ok(out);
  }

  /** The loop of `DO_BIND_ULEB_TIMES_SKIPPING_ULEB`. */
  method BindTimes(r: Regs, count: u64, skip: u64, kind: BindKind, out: seq<BindEntry>)
    returns (pushed: seq<BindEntry>, r': Regs)
    ensures r' == Burst(r, count, skip, kind).regs
    ensures pushed == out + Burst(r, count, skip, kind).out
  {
    pushed, r' := out, r;
    for i := 0 to count
      invariant Burst(r', count - i, skip, kind).regs == Burst(r, count, skip, kind).regs
      invariant pushed + Burst(r', count - i, skip, kind).out == out + Burst(r, count, skip, kind).out
    {
      pushed := pushed + [r'.Record(kind)];
      r' := r'.Skip(8).Skip(skip);
    }
  }

  // ----- programs as instruction lists -----

  predicate Encodable(op: Op) {
    Nibbles(op) && (op.SetSymbol? ==> NulFree(op.symbol))
  }

  predicate Encodables(ops: seq<Op>) {
    forall op :: op in ops ==> Encodable(op)
  }

  /** The opcode in the high nibble, an immediate in the low one. */
  function OpByte(op: Op): u8
    requires Nibbles(op)
  {
    match op
    case SetOrdinalImm(imm) => 0x10 + imm
    case SetOrdinalUleb(_) => 0x20
    case SetSpecial(imm) => 0x30 + imm
    case SetSymbol(imm, _) => 0x40 + imm
    case SetType(imm) => 0x50 + imm
    case SetAddend(_) => 0x60
    case SetSegment(imm, _) => 0x70 + imm
    case AddAddr(_) => 0x80
    case DoBind => 0x90
    case DoBindAddAddr(_) => 0xA0
    case DoBindScaled(imm) => 0xB0 + imm
    case DoBindTimes(_, _) => 0xC0
  }

  function Operands(op: Op): Bytes {
    match op
    case SetOrdinalUleb(v) => EncodeUleb(v)
    case SetSymbol(_, name) => name + [0]
    case SetAddend(v) => EncodeSleb(v)
    case SetSegment(_, off) => EncodeUleb(off)
    case AddAddr(d) => EncodeUleb(d)
    case DoBindAddAddr(d) => EncodeUleb(d)
    case DoBindTimes(count, skip) => EncodeUleb(count) + EncodeUleb(skip)
    case _ => []
  }

  function EncodeOp(op: Op): Bytes
    requires Encodable(op)
  {
    [OpByte(op)] + Operands(op)
  }

  function Assemble(ops: seq<Op>): Bytes
    requires Encodables(ops)
  {
    if ops == [] then [] else EncodeOp(ops[0]) + Assemble(ops[1..])
  }

  function Eval(ops: seq<Op>, r: Regs, kind: BindKind): Effect
    requires Encodables(ops)
  {
    if ops == [] then Effect(r, [])
    else
      assert Encodable(ops[0]);
      var first := Apply(ops[0], r, kind);
      var rest := Eval(ops[1..], first.regs, kind);
      Effect(rest.regs, first.out + rest.out)
  }

  lemma TwoUlebs(count: u64, skip: u64, tail: Bytes)
    ensures var c, k := EncodeUleb(count), EncodeUleb(skip); var s := c + k + tail;
      && DecodeUleb(s) == Ok(Decoded(count, |c|))
      && DecodeUleb(Tail(s, |c|)) == Ok(Decoded(skip, |k|))
  {
    hide DecodeUleb, EncodeUleb;
    var c, k := EncodeUleb(count), EncodeUleb(skip);
    assert c + k + tail == c + (k + tail);
    UlebRoundTrip(count, k + tail);
    UlebRoundTrip(skip, tail);
    assert Tail(c + k + tail, |c|) == k + tail;
  }

  lemma FetchesUleb(v: u64, tail: Bytes, make: u64 -> Op)
    ensures FetchUleb(EncodeUleb(v) + tail, make) == Fetched(make(v), 1 + |EncodeUleb(v)|)
  {
    hide DecodeUleb, EncodeUleb;
    UlebRoundTrip(v, tail);
  }

  predicate TakesUleb(op: Op) {
    op.SetOrdinalUleb? || op.SetSegment? || op.AddAddr? || op.DoBindAddAddr?
  }

  lemma UlebOpRoundTrip(op: Op, tail: Bytes)
    requires Encodable(op) && TakesUleb(op)
    ensures FetchOp(EncodeOp(op) + tail) == Fetched(op, |EncodeOp(op)|)
  {
    hide DecodeUleb, DecodeSleb, DecodeCString, EncodeUleb, EncodeSleb, ValidUtf8, FetchUleb;
    var s := EncodeOp(op) + tail;
    assert s[0] == OpByte(op) && s[1..] == Operands(op) + tail;
    match op {
      case SetOrdinalUleb(v) => FetchesUleb(v, tail, (v: u64) => SetOrdinalUleb(v));
      case SetSegment(imm, off) => FetchesUleb(off, tail, (v: u64) => SetSegment(imm, v));
      case AddAddr(d) => FetchesUleb(d, tail, (v: u64) => AddAddr(v));
      case DoBindAddAddr(d) => FetchesUleb(d, tail, (v: u64) => DoBindAddAddr(v));
    }
  }

  lemma LongOpRoundTrip(op: Op, tail: Bytes)
    requires Encodable(op) && (op.SetSymbol? || op.SetAddend?)
    ensures FetchOp(EncodeOp(op) + tail) == Fetched(op, |EncodeOp(op)|)
  {
    hide DecodeUleb, DecodeSleb, DecodeCString, EncodeUleb, EncodeSleb, ValidUtf8, FetchUleb;
    var s := EncodeOp(op) + tail;
    assert s[0] == OpByte(op) && s[1..] == Operands(op) + tail;
    match op {
      case SetSymbol(_, name) => CStringRoundTrip(name, tail);
      case SetAddend(v) => SlebRoundTrip(v, tail);
    }
  }

  lemma TimesRoundTrip(count: u64, skip: u64, tail: Bytes)
    ensures var op := DoBindTimes(count, skip); FetchOp(EncodeOp(op) + tail) == Fetched(op, |EncodeOp(op)|)
  {
    hide DecodeUleb, DecodeSleb, DecodeCString, EncodeUleb, EncodeSleb, ValidUtf8, FetchUleb;
    var op := DoBindTimes(count, skip);
    var s := EncodeOp(op) + tail;
    assert s[0] == 0xC0 && s[1..] == Operands(op) + tail;
    TwoUlebs(count, skip, tail);
  }

  lemma ShortOpRoundTrip(op: Op, tail: Bytes)
    requires Encodable(op)
    requires op.SetOrdinalImm? || op.SetSpecial? || op.SetType? || op.DoBind? || op.DoBindScaled?
    ensures FetchOp(EncodeOp(op) + tail) == Fetched(op, |EncodeOp(op)|)
  {
    hide DecodeUleb, DecodeSleb, DecodeCString, EncodeUleb, EncodeSleb, ValidUtf8, FetchUleb;
    assert (EncodeOp(op) + tail)[0] == OpByte(op);
  }

  /** Fetching inverts encoding, whatever follows. */
  lemma OpRoundTrip(op: Op, tail: Bytes)
    requires Encodable(op)
    ensures FetchOp(EncodeOp(op) + tail) == Fetched(op, |EncodeOp(op)|)
  {
    hide Encodable, FetchOp, EncodeOp;
    if TakesUleb(op) {
      UlebOpRoundTrip(op, tail);
    } else if op.SetSymbol? || op.SetAddend? {
      LongOpRoundTrip(op, tail);
    } else if op.DoBindTimes? {
      TimesRoundTrip(op.count, op.skip, tail);
    } else {
      ShortOpRoundTrip(op, tail);
    }
  }

  /** An assembled program does what its instructions mean, then whatever follows it. */
  lemma {:induction false} ExecAssembled(ops: seq<Op>, tail: Bytes, r: Regs, kind: BindKind)
    requires Encodables(ops)
    ensures Exec(Assemble(ops) + tail, r, kind)
         == Prepend(Eval(ops, r, kind).out, Exec(tail, Eval(ops, r, kind).regs, kind))
  {
    hide FetchOp, EncodeOp, Exec, Apply;
    if ops == [] {
      assert Assemble(ops) + tail == tail;
      PrependTwice([], [], Exec(tail, r, kind));
    } else {
      var code, rest := EncodeOp(ops[0]), Assemble(ops[1..]) + tail;
      var s := Assemble(ops) + tail;
      assert s == code + rest;
      OpRoundTrip(ops[0], rest);
      ExecStep(s, r, kind);
      assert s[|code|..] == rest;
      var first := Apply(ops[0], r, kind);
      ExecAssembled(ops[1..], tail, first.regs, kind);
      PrependTwice(first.out, Eval(ops[1..], first.regs, kind).out, Exec(tail, Eval(ops, r, kind).regs, kind));
    }
  }

  /** `DONE` and the unknown opcodes end the program: the bytes behind them never matter. */
  lemma StopIgnoresTheRest(b: u8, tail: Bytes, r: Regs, kind: BindKind)
    requires b < 0x10 || b >= 0xD0
    ensures Exec([b] + tail, r, kind) == Ok([])
  {
    assert ([b] + tail)[0] == b;
  }

  // ----- compressed forms -----

  /** Two instruction lists with the same effect in every register state. */
  ghost predicate Interchangeable(p: seq<Op>, q: seq<Op>) {
    && Encodables(p)
    && Encodables(q)
    && forall r, kind :: Eval(p, r, kind) == Eval(q, r, kind)
  }

  /** Swapping one for the other anywhere in a program leaves its records and its errors alone. */
  lemma InterchangeableAnywhere(before: seq<Op>, p: seq<Op>, q: seq<Op>, tail: Bytes, r: Regs, kind: BindKind)
    requires Interchangeable(p, q)
    requires Encodables(before)
    ensures Exec(Assemble(before) + (Assemble(p) + tail), r, kind)
         == Exec(Assemble(before) + (Assemble(q) + tail), r, kind)
  {
    hide Exec, Eval;
    ExecAssembled(before, Assemble(p) + tail, r, kind);
    ExecAssembled(before, Assemble(q) + tail, r, kind);
    var mid := Eval(before, r, kind).regs;
    ExecAssembled(p, tail, mid, kind);
    ExecAssembled(q, tail, mid, kind);
  }

  lemma EvalOne(op: Op, r: Regs, kind: BindKind)
    requires Encodable(op)
    ensures Eval([op], r, kind) == Apply(op, r, kind)
  {
    var e := Apply(op, r, kind);
    assert [op][1..] == [];
    assert e.out + [] == e.out;
  }

  function Copies(op: Op, n: nat): (ops: seq<Op>)
    ensures |ops| == n && forall o :: o in ops ==> o == op
  {
    if n == 0 then [] else [op] + Copies(op, n - 1)
  }

  lemma {:induction false} CopiesBurst(n: nat, skip: u64, r: Regs, kind: BindKind)
    ensures Eval(Copies(DoBindAddAddr(skip), n), r, kind) == Burst(r, n, skip, kind)
    decreases n
  {
    if n > 0 {
      CopiesBurst(n - 1, skip, r.Skip(8).Skip(skip), kind);
      assert Copies(DoBindAddAddr(skip), n)[1..] == Copies(DoBindAddAddr(skip), n - 1);
    }
  }

  /** `ULEB_TIMES_SKIPPING_ULEB(n, skip)` is `DO_BIND_ADD_ADDR_ULEB(skip)` written `n` times. */
  lemma TimesIsRepetition(n: u64, skip: u64)
    ensures Interchangeable([DoBindTimes(n, skip)], Copies(DoBindAddAddr(skip), n))
  {
    forall r, kind ensures Eval([DoBindTimes(n, skip)], r, kind) == Eval(Copies(DoBindAddAddr(skip), n), r, kind) {
      EvalOne(DoBindTimes(n, skip), r, kind);
      CopiesBurst(n, skip, r, kind);
    }
  }

  /** `DO_BIND; ADD_ADDR_ULEB(d)` is `DO_BIND_ADD_ADDR_ULEB(d)`. */
  lemma BindThenAdd(d: u64)
    ensures Interchangeable([DoBind, AddAddr(d)], [DoBindAddAddr(d)])
  {
    forall r, kind ensures Eval([DoBind, AddAddr(d)], r, kind) == Eval([DoBindAddAddr(d)], r, kind) {
      EvalOne(DoBindAddAddr(d), r, kind);
      assert [DoBind, AddAddr(d)][1..] == [AddAddr(d)];
      EvalOne(AddAddr(d), r.Skip(8), kind);
      assert [r.Record(kind)] + [] == [r.Record(kind)];
    }
  }

  /** `IMM_SCALED(k)` is `DO_BIND_ADD_ADDR_ULEB(8k)`, wrap-around included. */
  lemma ScaledIsAddAddr(k: u8)
    requires k < 16
    ensures Interchangeable([DoBindScaled(k)], [DoBindAddAddr(8 * k as int)])
  {
    forall r, kind ensures Eval([DoBindScaled(k)], r, kind) == Eval([DoBindAddAddr(8 * k as int)], r, kind) {
      hide Eval, WrappingAdd;
      EvalOne(DoBindScaled(k), r, kind);
      EvalOne(DoBindAddAddr(8 * k as int), r, kind);
      WrapTwice(r.segOffset, 8, 8 * k as int);
    }
  }

  // ----- how far addresses advance -----

  /** The record a bind emits when the registers are `r` but for the offset. */
  function EntryAt(r: Regs, offset: u64, kind: BindKind): BindEntry {
    BindEntry(r.segIndex, offset, r.ordinal, r.symbol, r.flags, r.addend, r.bindType, kind)
  }

  lemma EvalTwo(p: Op, q: Op, r: Regs, kind: BindKind)
    requires Encodable(p) && Encodable(q)
    ensures Eval([p, q], r, kind).out == Apply(p, r, kind).out + Apply(q, Apply(p, r, kind).regs, kind).out
  {
    hide Apply;
    assert [p, q][1..] == [q];
    EvalOne(q, Apply(p, r, kind).regs, kind);
  }

  lemma WrapLater(o: u64, a: nat, b: nat)
    ensures ((o + a) % TWO_64 + b) % TWO_64 == (o + a + b) % TWO_64
  {
    var q := (o + a) / TWO_64;
    assert o + a + b == ((o + a) % TWO_64 + b) + q * TWO_64;
    SameRemainder((o + a) % TWO_64 + b, q, TWO_64);
  }

  lemma SkipIs(r: Regs, d: u64)
    ensures r.Skip(d) == r.(segOffset := (r.segOffset + d) % TWO_64)
  {
  }

  /** A bind advances the offset by 8, on top of what its own operand adds; `ADD_ADDR` by its operand alone. */
  lemma OffsetsAdvance(d: u64, k: u8, r: Regs, kind: BindKind)
    requires k < 16
    ensures var o := r.segOffset;
      && Eval([DoBind, DoBind], r, kind).out == [EntryAt(r, o, kind), EntryAt(r, (o + 8) % TWO_64, kind)]
      && Eval([AddAddr(d), DoBind], r, kind).out == [EntryAt(r, (o + d) % TWO_64, kind)]
      && Eval([DoBindAddAddr(d), DoBind], r, kind).out == [EntryAt(r, o, kind), EntryAt(r, (o + 8 + d) % TWO_64, kind)]
      && Eval([DoBindScaled(k), DoBind], r, kind).out
         == [EntryAt(r, o, kind), EntryAt(r, (o + 8 + 8 * k as int) % TWO_64, kind)]
  {
    hide Eval, EntryAt;
    AfterBind(DoBind, 8, r, kind);
    AfterBind(DoBindScaled(k), 8 + 8 * k as int, r, kind);
    AfterAdd(d, r, kind);
    AfterBindAndAdd(d, r, kind);
  }

  lemma AfterAdd(d: u64, r: Regs, kind: BindKind)
    ensures Eval([AddAddr(d), DoBind], r, kind).out == [EntryAt(r, (r.segOffset + d) % TWO_64, kind)]
  {
    SkipIs(r, d);
    hide Eval, Regs.Skip, WrappingAdd;
    EvalTwo(AddAddr(d), DoBind, r, kind);
  }

  /** An opcode that binds and then skips `d`, and the next bind. */
  lemma AfterBind(op: Op, d: u64, r: Regs, kind: BindKind)
    requires (op == DoBind && d == 8) || (op.DoBindScaled? && op.imm < 16 && d == 8 + 8 * op.imm as int)
    ensures Eval([op, DoBind], r, kind).out
         == [EntryAt(r, r.segOffset, kind), EntryAt(r, (r.segOffset + d) % TWO_64, kind)]
  {
    SkipIs(r, d);
    hide Eval, Regs.Skip, WrappingAdd;
    EvalTwo(op, DoBind, r, kind);
  }

  lemma AfterBindAndAdd(d: u64, r: Regs, kind: BindKind)
    ensures Eval([DoBindAddAddr(d), DoBind], r, kind).out
         == [EntryAt(r, r.segOffset, kind), EntryAt(r, (r.segOffset + 8 + d) % TWO_64, kind)]
  {
    SkipIs(r, 8);
    SkipIs(r.Skip(8), d);
    WrapLater(r.segOffset, 8, d);
    hide Eval, Regs.Skip, WrappingAdd;
    EvalTwo(DoBindAddAddr(d), DoBind, r, kind);
  }

  /** `i` steps on from `o`, modulo 2^64. */
  function Advanced(o: u64, i: nat, step: nat): u64 {
    (o + i * step) % TWO_64
  }

  lemma AdvancedFirst(o: u64, i: nat, step: nat)
    ensures Advanced(o, 0, step) == o
    ensures Advanced(Advanced(o, 1, step), i, step) == Advanced(o, i + 1, step)
  {
    WrapLater(o, step, i * step);
    assert (i + 1) * step == step + i * step;
  }

  lemma BothSkips(r: Regs, skip: u64)
    ensures r.Skip(8).Skip(skip) == r.(segOffset := Advanced(r.segOffset, 1, 8 + skip))
  {
    SkipIs(r, 8);
    SkipIs(r.Skip(8), skip);
    WrapLater(r.segOffset, 8, skip);
  }

  /** Record `i` of a counted bind stands `i` steps of `8 + skip` on, and the register ends `n` steps on. */
  lemma {:induction false} BurstAdvances(n: nat, skip: u64, r: Regs, kind: BindKind)
    ensures var e := Burst(r, n, skip, kind);
      && e.regs == r.(segOffset := Advanced(r.segOffset, n, 8 + skip))
      && |e.out| == n
      && forall i :: 0 <= i < n ==> e.out[i] == EntryAt(r, Advanced(r.segOffset, i, 8 + skip), kind)
    decreases n
  {
    AdvancedFirst(r.segOffset, 0, 8 + skip);
    if n > 0 {
      var next := r.(segOffset := Advanced(r.segOffset, 1, 8 + skip));
      BurstUnfold(n, skip, r, kind);
      AdvancedFirst(r.segOffset, n - 1, 8 + skip);
      hide Advanced, Burst;
      BurstAdvances(n - 1, skip, next, kind);
      forall i | 0 < i < n
        ensures Burst(r, n, skip, kind).out[i] == EntryAt(r, Advanced(r.segOffset, i, 8 + skip), kind)
      {
        AdvancedFirst(r.segOffset, i - 1, 8 + skip);
        assert Burst(r, n, skip, kind).out[i] == Burst(next, n - 1, skip, kind).out[i - 1];
      }
    }
  }

  lemma BurstUnfold(n: nat, skip: u64, r: Regs, kind: BindKind)
    requires n > 0
    ensures var rest := Burst(r.(segOffset := Advanced(r.segOffset, 1, 8 + skip)), n - 1, skip, kind);
      Burst(r, n, skip, kind) == Effect(rest.regs, [EntryAt(r, r.segOffset, kind)] + rest.out)
  {
    hide Advanced, Regs.Skip;
    BothSkips(r, skip);
  }

  lemma TimesAdvance(n: u64, skip: u64, r: Regs, kind: BindKind)
    ensures var e := Eval([DoBindTimes(n, skip)], r, kind);
      && e.regs == r.(segOffset := (r.segOffset + n * (8 + skip)) % TWO_64)
      && |e.out| == n
      && forall i :: 0 <= i < n ==> e.out[i] == EntryAt(r, (r.segOffset + i * (8 + skip)) % TWO_64, kind)
  {
    EvalOne(DoBindTimes(n, skip), r, kind);
    hide Eval, Burst;
    BurstAdvances(n, skip, r, kind);
  }

  /** The special immediate is a four-bit number, read as signed but for 0. */
  lemma SpecialOrdinals(imm: u8, r: Regs, kind: BindKind)
    requires imm < 16
    ensures var out := Eval([SetSpecial(imm), DoBind], r, kind).out;
      && |out| == 1 && -16 < out[0].libOrdinal <= 0 && (out[0].libOrdinal - imm as int) % 16 == 0
      && out[0] == EntryAt(r.(ordinal := out[0].libOrdinal), r.segOffset, kind)
  {
    hide Eval, WrappingAdd;
    EvalTwo(SetSpecial(imm), DoBind, r, kind);
  }

  /** Before anything is set a bind emits zeros, the empty symbol and type 1. */
  lemma BareBind(junk: Bytes, kind: BindKind)
    ensures Exec([0x90, 0x00] + junk, INITIAL, kind) == Ok([BindEntry(0, 0, 0, [], 0, 0, 1, kind)])
  {
    hide Exec;
    var s: Bytes, rest: Bytes := [0x90, 0x00] + junk, [0x00] + junk;
    assert s[0] == 0x90 && s[1..] == rest;
    assert FetchOp(s) == Fetched(DoBind, 1);
    ExecStep(s, INITIAL, kind);
    StopIgnoresTheRest(0x00, junk, INITIAL.Skip(8), kind);
    assert [INITIAL.Record(kind)] + [] == [INITIAL.Record(kind)];
  }

  /** A program that ends before the operand of its last opcode fails, whatever was emitted before. */
  lemma MissingOperand(ops: seq<Op>, b: u8, r: Regs, kind: BindKind)
    requires Encodables(ops) && b / 0x10 in [2, 4, 6, 7, 8, 10, 12]
    ensures Exec(Assemble(ops) + [b], r, kind)
         == Err(Truncated(if b / 0x10 == 4 then "cstring" else if b / 0x10 == 6 then "sleb128" else "uleb128"))
  {
    hide Exec, Assemble, Eval;
    ExecAssembled(ops, [b], r, kind);
    var end := Eval(ops, r, kind).regs;
    assert [b][1..] == [];
    NoNumber();
    ExecStep([b], end, kind);
  }

  lemma NoNumber()
    ensures DecodeUleb([]) == Err(Truncated("uleb128")) && DecodeSleb([]) == Err(Truncated("sleb128"))
    ensures DecodeCString([]) == Err(Truncated("cstring"))
  {
  }

  // ----- record lists -----

  predicate Representable(e: BindEntry, kind: BindKind) {
    e.segmentIndex < 16 && e.flags < 16 && e.bindType < 16 && NulFree(e.symbol) && e.kind == kind
  }

  function OrdinalOp(ordinal: i64): Op {
    if 0 <= ordinal < 16 then SetOrdinalImm(ordinal)
    else if -16 < ordinal < 0 then SetSpecial(16 + ordinal)
    else SetOrdinalUleb(ordinal % TWO_64)
  }

  /** Set every register, then bind. */
  function RecordOps(e: BindEntry): seq<Op> {
    [OrdinalOp(e.libOrdinal)] + ([SetSymbol(e.flags, e.symbol)] + ([SetType(e.bindType)] + ([SetAddend(e.addend)]
    + ([SetSegment(e.segmentIndex, e.segmentOffset)] + [DoBind]))))
  }

  function Canonical(records: seq<BindEntry>): (ops: seq<Op>) {
    if records == [] then [] else RecordOps(records[0]) + Canonical(records[1..])
  }

  lemma RecordEncodable(e: BindEntry, kind: BindKind)
    requires Representable(e, kind)
    ensures Encodables(RecordOps(e))
  {
  }

  lemma EncodablesConcat(p: seq<Op>, q: seq<Op>)
    requires Encodables(p) && Encodables(q)
    ensures Encodables(p + q)
  {
    hide Encodable;
  }

  lemma {:induction false} CanonicalEncodable(records: seq<BindEntry>, kind: BindKind)
    requires forall e :: e in records ==> Representable(e, kind)
    ensures Encodables(Canonical(records))
  {
    hide Representable, Encodable, RecordOps;
    if records != [] {
      RecordEncodable(records[0], kind);
      CanonicalEncodable(records[1..], kind);
      EncodablesConcat(RecordOps(records[0]), Canonical(records[1..]));
    }
  }

  lemma {:induction false} EvalConcat(p: seq<Op>, q: seq<Op>, r: Regs, kind: BindKind)
    requires Encodables(p) && Encodables(q)
    ensures Encodables(p + q)
    ensures Eval(p + q, r, kind).out == Eval(p, r, kind).out + Eval(q, Eval(p, r, kind).regs, kind).out
  {
    hide Apply;
    if p == [] {
      assert p + q == q;
    } else {
      assert (p + q)[0] == p[0] && (p + q)[1..] == p[1..] + q;
      assert Encodable(p[0]);
      EvalConcat(p[1..], q, Apply(p[0], r, kind).regs, kind);
    }
  }

  lemma OrdinalSet(ordinal: i64, r: Regs, kind: BindKind)
    ensures Encodable(OrdinalOp(ordinal))
    ensures Apply(OrdinalOp(ordinal), r, kind) == Effect(r.(ordinal := ordinal), [])
  {
  }

  /** An instruction that emits nothing only hands its registers on. */
  lemma Silent(op: Op, rest: seq<Op>, r: Regs, kind: BindKind)
    requires Encodable(op) && Apply(op, r, kind).out == []
    requires Encodables(rest)
    ensures Encodables([op] + rest)
    ensures Eval([op] + rest, r, kind).out == Eval(rest, Apply(op, r, kind).regs, kind).out
  {
    hide Apply;
    assert ([op] + rest)[1..] == rest;
  }

  lemma RecordEmitted(e: BindEntry, r: Regs, kind: BindKind)
    requires Representable(e, kind)
    ensures Encodables(RecordOps(e))
    ensures Eval(RecordOps(e), r, kind).out == [e]
  {
    hide Eval, OrdinalOp;
    var r1 := r.(ordinal := e.libOrdinal);
    var r2 := r1.(flags := e.flags, symbol := e.symbol);
    var r3 := r2.(bindType := e.bindType);
    var r4 := r3.(addend := e.addend);
    var r5 := r4.(segIndex := e.segmentIndex, segOffset := e.segmentOffset);
    EvalOne(DoBind, r5, kind);
    Silent(SetSegment(e.segmentIndex, e.segmentOffset), [DoBind], r4, kind);
    var s4 := [SetSegment(e.segmentIndex, e.segmentOffset)] + [DoBind];
    Silent(SetAddend(e.addend), s4, r3, kind);
    var s3 := [SetAddend(e.addend)] + s4;
    Silent(SetType(e.bindType), s3, r2, kind);
    var s2 := [SetType(e.bindType)] + s3;
    Silent(SetSymbol(e.flags, e.symbol), s2, r1, kind);
    OrdinalSet(e.libOrdinal, r, kind);
    Silent(OrdinalOp(e.libOrdinal), [SetSymbol(e.flags, e.symbol)] + s2, r, kind);
  }

  lemma {:induction false} CanonicalEmits(records: seq<BindEntry>, r: Regs, kind: BindKind)
    requires forall e :: e in records ==> Representable(e, kind)
    ensures Encodables(Canonical(records))
    ensures Eval(Canonical(records), r, kind).out == records
  {
    hide RecordOps;
    CanonicalEncodable(records, kind);
    if records != [] {
      assert Representable(records[0], kind);
      RecordEmitted(records[0], r, kind);
      EvalConcat(RecordOps(records[0]), Canonical(records[1..]), r, kind);
      CanonicalEmits(records[1..], Eval(RecordOps(records[0]), r, kind).regs, kind);
    }
  }

  /** The canonical program of a record list parses back to that list, with anything behind its `DONE`. */
  lemma RecordsRoundTrip(records: seq<BindEntry>, kind: BindKind, junk: Bytes)
    requires forall e :: e in records ==> Representable(e, kind)
    ensures Encodables(Canonical(records))
    ensures Exec(Assemble(Canonical(records)) + ([0x00] + junk), INITIAL, kind) == Ok(records)
  {
    CanonicalEmits(records, INITIAL, kind);
    ExecAssembled(Canonical(records), [0x00] + junk, INITIAL, kind);
    StopIgnoresTheRest(0x00, junk, Eval(Canonical(records), INITIAL, kind).regs, kind);
    assert records + [] == records;
  }
}
