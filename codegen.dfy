/** The bytecode back end of `hanno/codegen/main.py`: instructions, their 8-byte
    encoding with string and function pools, the pool encoding and the file
    header. */
module Codegen {
  import opened Wrappers
  import opened Errors
  import opened Bytes

  /** A bytecode instruction with its operands. `LoadFunc` carries the
      instructions of the function's body. */
  datatype Instruction =
    | LoadUnit
    | LoadBool(flag: bool)
    | LoadString(text: string)
    | LoadInt(number: int)
    | LoadFloat(literal: string)
    | LoadFunc(body: seq<Instruction>)
    | BuildPair
    | BuildList(size: int)
    | LoadName(depth: int, index: int)
    | StoreName(slot: int)
    | Apply
    | Native(opIndex: int)
    | Jump(offset: int)
    | Branch(offset: int)

  /** The numbers of `OpCodes`. */
  function OpCode(ins: Instruction): (code: byte)
    ensures code <= 13
  {
    match ins
    case LoadUnit => 0
    case LoadBool(_) => 1
    case LoadString(_) => 2
    case LoadInt(_) => 3
    case LoadFloat(_) => 4
    case LoadFunc(_) => 5
    case BuildPair => 6
    case BuildList(_) => 7
    case LoadName(_, _) => 8
    case StoreName(_) => 9
    case Apply => 10
    case Native(_) => 11
    case Jump(_) => 12
    case Branch(_) => 13
  }

  /** The function pool and the string pool. */
  datatype Pools = Pools(funcs: seq<seq<byte>>, strings: seq<seq<byte>>)

  /** Pools only ever grow at the end. */
  predicate Extends(before: Pools, after: Pools) {
    |before.funcs| <= |after.funcs| && after.funcs[..|before.funcs|] == before.funcs
    && |before.strings| <= |after.strings| && after.strings[..|before.strings|] == before.strings
  }

  /** `encode_operands`: the operand bytes of one instruction (at most seven)
      and the pools after any entry it adds. */
  function EncodeOperands(ins: Instruction, pools: Pools): (r: Result<(seq<byte>, Pools), CompilerError>)
    decreases ins, 0
    ensures r.Ok? ==> |r.value.0| <= 7 && Extends(pools, r.value.1)
    ensures ins.LoadBool? ==> r == Ok(([if ins.flag then 0xFF else 0x00], pools))
  {
    match ins
    case LoadBool(flag) => Ok((if flag then [0xFF] else [0x00], pools))
    case LoadString(text) => EncodeLoadString(text, pools)
    case LoadInt(number) =>
      var bytes :- ToBytes(number, 7, true);
      Ok((bytes, pools))
    case LoadFloat(_) => Ok(([], pools))
    case LoadName(depth, index) =>
      var depthBytes :- ToBytes(depth, 3, false);
      var indexBytes :- ToBytes(index, 4, false);
      Ok((depthBytes + indexBytes, pools))
    case LoadFunc(body) => EncodeLoadFunc(body, pools)
    case StoreName(slot) =>
      var bytes :- ToBytes(slot, 4, false);
      Ok((bytes, pools))
    case Native(opIndex) =>
      var bytes :- ToBytes(opIndex, 1, false);
      Ok((bytes, pools))
    case Branch(offset) =>
      var bytes :- ToBytes(offset, 7, false);
      Ok((bytes, pools))
    case Jump(offset) =>
      var bytes :- ToBytes(offset, 7, false);
      Ok((bytes, pools))
    case BuildList(size) =>
      var bytes :- ToBytes(size, 7, false);
      Ok((bytes, pools))
    case _ => Ok(([], pools))
  }

  /** `_encode_load_string`: the UTF-8 text becomes the last string-pool entry,
      and the operand is its index. */
  function EncodeLoadString(text: string, pools: Pools): (r: Result<(seq<byte>, Pools), CompilerError>)
    ensures r.Ok? ==> r.value.1 == pools.(strings := pools.strings + [Utf8(text)])
    ensures r.Ok? ==> |r.value.0| == 7 && FromBytes(r.value.0) == |pools.strings|
  {
    var strings := pools.strings + [Utf8(text)];
    var index :- ToBytes(|strings| - 1, 7, false);
    Ok((index, pools.(strings := strings)))
  }

  /** `_encode_load_func`: the body is encoded first (adding its own entries),
      then its code becomes the last function-pool entry, and the operand is its
      index. */
  function EncodeLoadFunc(body: seq<Instruction>, pools: Pools): (r: Result<(seq<byte>, Pools), CompilerError>)
    decreases body, 2
    ensures r.Ok? ==> Extends(pools, r.value.1) && |r.value.1.funcs| >= |pools.funcs| + 1
    ensures r.Ok? ==> |r.value.0| == 7 && FromBytes(r.value.0) == |r.value.1.funcs| - 1
    ensures r.Ok? ==> EncodeStream(body, pools).Ok?
                      && r.value.1.funcs[|r.value.1.funcs| - 1] == EncodeStream(body, pools).value.0
  {
    var (code, after) :- EncodeStream(body, pools);
    var funcs := after.funcs + [code];
    var index :- ToBytes(|funcs| - 1, 7, false);
    assert funcs[..|pools.funcs|] == after.funcs[..|pools.funcs|];
    Ok((index, after.(funcs := funcs)))
  }

  /** `encode_instructions`: eight bytes per instruction, the opcode followed by
      its operands padded with zeros to seven bytes. */
  function EncodeStream(stream: seq<Instruction>, pools: Pools): (r: Result<(seq<byte>, Pools), CompilerError>)
    decreases stream, 1
    ensures r.Ok? ==> |r.value.0| == 8 * |stream| && Extends(pools, r.value.1)
    ensures r.Ok? ==> forall i :: 0 <= i < |stream| ==> r.value.0[8 * i] == OpCode(stream[i])
  {
    if stream == [] then Ok(([], pools))
    else
      var (operands, middle) :- EncodeOperands(stream[0], pools);
      var (rest, after) :- EncodeStream(stream[1..], middle);
      var code := [OpCode(stream[0])] + LJust(operands, 7, 0) + rest;
      assert forall i :: 1 <= i < |stream| ==> code[8 * i] == rest[8 * (i - 1)];
      Ok((code, after))
  }

  /** The pools as Python lists that the encoder appends to. */
  class PoolBuilder {
    var funcs: seq<seq<byte>>
    var strings: seq<seq<byte>>

    constructor ()
      ensures funcs == [] && strings == []
    {
      funcs := [];
      strings := [];
    }

    function Value(): Pools
      reads this
    {
      Pools(funcs, strings)
    }
  }

  /** The outcome of encoding, with `prefix` put in front of the code. */
  function Prepend(prefix: seq<byte>, r: Result<(seq<byte>, Pools), CompilerError>): Result<(seq<byte>, Pools), CompilerError> {
    match r
    case Ok((code, pools)) => Ok((prefix + code, pools))
    case Err(e) => Err(e)
  }

  lemma PrependEmpty(r: Result<(seq<byte>, Pools), CompilerError>)
    ensures Prepend([], r) == r
  {
    if r.Ok? {
      assert [] + r.value.0 == r.value.0;
    }
  }

  lemma PrependPrepend(a: seq<byte>, b: seq<byte>, r: Result<(seq<byte>, Pools), CompilerError>)
    ensures Prepend(a, Prepend(b, r)) == Prepend(a + b, r)
  {
    if r.Ok? {
      assert a + (b + r.value.0) == (a + b) + r.value.0;
    }
  }

  lemma PrependStep(whole: Result<(seq<byte>, Pools), CompilerError>, done: seq<byte>, slot: seq<byte>,
                    r: Result<(seq<byte>, Pools), CompilerError>, r': Result<(seq<byte>, Pools), CompilerError>)
    requires whole == Prepend(done, r) && r == Prepend(slot, r')
    ensures whole == Prepend(done + slot, r')
  {
    PrependPrepend(done, slot, r');
  }

  /** Encoding a suffix of a stream is encoding its first instruction, then the rest. */
  lemma EncodeStep(stream: seq<Instruction>, index: nat, pools: Pools)
    requires index < |stream|
    ensures EncodeOperands(stream[index], pools).Err? ==> EncodeStream(stream[index..], pools).Err?
    ensures EncodeOperands(stream[index], pools).Ok? ==>
      EncodeStream(stream[index..], pools)
      == Prepend([OpCode(stream[index])] + LJust(EncodeOperands(stream[index], pools).value.0, 7, 0),
                 EncodeStream(stream[index + 1..], EncodeOperands(stream[index], pools).value.1))
  {
    assert stream[index..][0] == stream[index];
    assert stream[index..][1..] == stream[index + 1..];
  }

  /** Writes the eight bytes of slot `index`, leaving the slots before it alone. */
  method WriteSlot(code: array<byte>, index: nat, slot: seq<byte>)
    requires |slot| == 8 && index * 8 + 8 <= code.Length
    modifies code
    ensures code[..index * 8 + 8] == old(code[..index * 8]) + slot
    ensures forall k :: index * 8 + 8 <= k < code.Length ==> code[k] == old(code[k])
  {
    forall j | 0 <= j < 8 {
      code[index * 8 + j] := slot[j];
    }
  }

  /** `encode_instructions`: fills a zeroed buffer of `8 * |stream|` bytes slot
      by slot, appending to the pools as operands require. */
  method EncodeInstructions(stream: seq<Instruction>, pools: PoolBuilder) returns (r: Result<array<byte>, CompilerError>)
    modifies pools
    decreases stream, 1
    ensures EncodeStream(stream, old(pools.Value())).Ok? <==> r.Ok?
    ensures r.Ok? ==> fresh(r.value)
    ensures r.Ok? ==> r.value[..] == EncodeStream(stream, old(pools.Value())).value.0
    ensures r.Ok? ==> pools.Value() == EncodeStream(stream, old(pools.Value())).value.1
  {
    var code := new byte[|stream| * 8];
    assert stream[0..] == stream;
    PrependEmpty(EncodeStream(stream, pools.Value()));
    for index := 0 to |stream|
      invariant fresh(code) && code.Length == |stream| * 8
      invariant EncodeStream(stream, old(pools.Value()))
             == Prepend(code[..index * 8], EncodeStream(stream[index..], pools.Value()))
    {
      var failure := EncodeSlot(stream, index, code, pools, EncodeStream(stream, old(pools.Value())));
      if failure.Some? {
        return Err(failure.value);
      }
    }
    assert stream[|stream|..] == [];
    assert code[..|stream| * 8] == code[..];
    return Ok(code);
  }

  /** One turn of `encode_instructions`: slot `index` is written, or the
      error of its operands is returned. */
  method EncodeSlot(stream: seq<Instruction>, index: nat, code: array<byte>, pools: PoolBuilder,
                    ghost whole: Result<(seq<byte>, Pools), CompilerError>) returns (failure: Option<CompilerError>)
    requires index < |stream| && code.Length == |stream| * 8
    requires whole == Prepend(code[..index * 8], EncodeStream(stream[index..], pools.Value()))
    modifies code, pools
    decreases stream, 0
    ensures failure.Some? ==> whole.Err?
    ensures failure.None? ==> whole == Prepend(code[..(index + 1) * 8], EncodeStream(stream[index + 1..], pools.Value()))
  {
    ghost var before := pools.Value();
    ghost var done := code[..index * 8];
    ghost var rest := EncodeStream(stream[index..], before);
    var operands := EncodeOperandsInto(stream[index], pools);
    if operands.Err? {
      assert whole.Err? by {
        EncodeStep(stream, index, before);
      }
      return Some(operands.error);
    }
    var slot := [OpCode(stream[index])] + LJust(operands.value, 7, 0);
    ghost var rest' := EncodeStream(stream[index + 1..], pools.Value());
    assert rest == Prepend(slot, rest') by {
      EncodeStep(stream, index, before);
    }
    WriteSlot(code, index, slot);
    assert code[..(index + 1) * 8] == done + slot by {
      assert (index + 1) * 8 == index * 8 + 8;
    }
    PrependStep(whole, done, slot, rest, rest');
    return None;
  }

  /** `encode_operands` with the pools updated in place. */
  method EncodeOperandsInto(ins: Instruction, pools: PoolBuilder) returns (r: Result<seq<byte>, CompilerError>)
    modifies pools
    decreases ins, 0
    ensures EncodeOperands(ins, old(pools.Value())).Ok? <==> r.Ok?
    ensures r.Ok? ==> r.value == EncodeOperands(ins, old(pools.Value())).value.0
    ensures r.Ok? ==> pools.Value() == EncodeOperands(ins, old(pools.Value())).value.1
  {
    match ins
    case LoadString(text) =>
      r := LoadStringInto(text, pools);
    case LoadFunc(body) =>
      r := LoadFuncInto(body, pools);
    case _ =>
      r := match EncodeOperands(ins, pools.Value())
        case Ok((operands, _)) => Ok(operands)
        case Err(e) => Err(e);
  }

  /** `_encode_load_string` with the string pool appended to in place. */
  method LoadStringInto(text: string, pools: PoolBuilder) returns (r: Result<seq<byte>, CompilerError>)
    modifies pools
    ensures EncodeLoadString(text, old(pools.Value())).Ok? <==> r.Ok?
    ensures r.Ok? ==> r.value == EncodeLoadString(text, old(pools.Value())).value.0
    ensures r.Ok? ==> pools.Value() == EncodeLoadString(text, old(pools.Value())).value.1
  {
    pools.strings := pools.strings + [Utf8(text)];
    var index :- ToBytes(|pools.strings| - 1, 7, false);
    return Ok(index);
  }

  /** `_encode_load_func` with the pools appended to in place. */
  method LoadFuncInto(body: seq<Instruction>, pools: PoolBuilder) returns (r: Result<seq<byte>, CompilerError>)
    modifies pools
    decreases body, 2
    ensures EncodeLoadFunc(body, old(pools.Value())).Ok? <==> r.Ok?
    ensures r.Ok? ==> r.value == EncodeLoadFunc(body, old(pools.Value())).value.0
    ensures r.Ok? ==> pools.Value() == EncodeLoadFunc(body, old(pools.Value())).value.1
  {
    var bodyCode :- EncodeInstructions(body, pools);
    pools.funcs := pools.funcs + [bodyCode[..]];
    var index :- ToBytes(|pools.funcs| - 1, 7, false);
    return Ok(index);
  }

  /** `encode_pool`: each entry preceded by its length in four bytes. */
  function EncodePool(pool: seq<seq<byte>>): (r: Result<seq<byte>, CompilerError>)
    ensures r.Ok? <==> forall i :: 0 <= i < |pool| ==> |pool[i]| < Pow256(4)
    ensures r.Ok? ==> |r.value| == PoolSize(pool)
  {
    if pool == [] then Ok([])
    else
      var size :- ToBytes(|pool[0]|, 4, false);
      var rest :- EncodePool(pool[1..]);
      Ok(size + pool[0] + rest)
  }

  /** The encoded size of a pool: every entry plus four bytes. */
  function PoolSize(pool: seq<seq<byte>>): nat {
    if pool == [] then 0 else |pool[0]| + 4 + PoolSize(pool[1..])
  }

  /** `generate_header`: `F:`, `S:` and `C:` each followed by a four-byte size
      (function pool, string pool, instruction stream), then `E:` and the
      encoding's name padded with zeros to twelve bytes. */
  function GenerateHeader(streamSize: int, funcPoolSize: int, stringPoolSize: int,
                          encodingName: seq<byte>): (r: Result<seq<byte>, CompilerError>)
    ensures r.Ok? <==> 0 <= streamSize < Pow256(4) && 0 <= funcPoolSize < Pow256(4)
                       && 0 <= stringPoolSize < Pow256(4)
    ensures r.Ok? ==> |r.value| == 20 + (if |encodingName| > 12 then |encodingName| else 12)
    ensures r.Ok? ==> r.value[0..2] == [70, 58] && FromBytes(r.value[2..6]) == funcPoolSize
    ensures r.Ok? ==> r.value[6..8] == [83, 58] && FromBytes(r.value[8..12]) == stringPoolSize
    ensures r.Ok? ==> r.value[12..14] == [67, 58] && FromBytes(r.value[14..18]) == streamSize
    ensures r.Ok? ==> r.value[18..20] == [69, 58] && r.value[20..20 + |encodingName|] == encodingName
  {
    var funcs :- ToBytes(funcPoolSize, 4, false);
    var strings :- ToBytes(stringPoolSize, 4, false);
    var stream :- ToBytes(streamSize, 4, false);
    var fields := [70, 58] + funcs + [83, 58] + strings + [67, 58] + stream + [69, 58];
    var header := fields + LJust(encodingName, 12, 0);
    HeaderLayout(funcs, strings, stream, fields, encodingName, header);
    Ok(header)
  }

  /** Where each field lies in a header. */
  lemma HeaderLayout(funcs: seq<byte>, strings: seq<byte>, stream: seq<byte>, fields: seq<byte>,
                     encodingName: seq<byte>, header: seq<byte>)
    requires |funcs| == 4 && |strings| == 4 && |stream| == 4
    requires fields == [70, 58] + funcs + [83, 58] + strings + [67, 58] + stream + [69, 58]
    requires header == fields + LJust(encodingName, 12, 0)
    ensures |header| == 20 + (if |encodingName| > 12 then |encodingName| else 12)
    ensures header[0..2] == [70, 58] && header[2..6] == funcs && header[6..8] == [83, 58] && header[8..12] == strings
    ensures header[12..14] == [67, 58] && header[14..18] == stream && header[18..20] == [69, 58]
    ensures header[20..20 + |encodingName|] == encodingName
  {
    assert header[..20] == fields;
    assert fields[2..6] == funcs && fields[8..12] == strings && fields[14..18] == stream;
    var padded := LJust(encodingName, 12, 0);
    assert header[20..] == padded;
    assert header[20..20 + |encodingName|] == padded[..|encodingName|];
  }
}
