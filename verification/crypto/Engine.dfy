// The pipeline of byte-string transformations: an engine applies its modules in order and
// undoes them in reverse order.
module Engine {
  import opened ByteStrings
  import opened AriaTables
  import opened Aria
  import opened AriaCipher
  import opened Cbc

  // A module is its two operations. Processing may draw on fresh random bytes (an
  // initialisation vector), which are a parameter here.
  datatype Module = Module(process: (Block, Bytes) -> Bytes, reverse: Bytes -> Bytes)

  ghost predicate ReversesItself(m: Module) {
    forall iv: Block, x: Bytes :: m.reverse(m.process(iv, x)) == x
  }

  // ---------- The modules of the repository ----------

  // The conversion of an int to an unsigned byte, which keeps the value modulo 256.
  function ToByte(n: int): bv8 { (n % 256) as bv8 }

  function ShiftBytes(offset: int, x: Bytes): Bytes {
    seq(|x|, i requires 0 <= i < |x| => ToByte(x[i] as int + offset))
  }

  function ShiftModule(offset: int): Module {
    Module((iv: Block, x: Bytes) => ShiftBytes(offset, x), (x: Bytes) => ShiftBytes(-offset, x))
  }

  function EncryptionModule(key: Bytes): Module
    requires LegalKey(key)
  {
    Module((iv: Block, x: Bytes) => EncryptMessage(key, iv, x), (x: Bytes) => DecryptMessage(key, x))
  }

  function Unprefix(pad: Bytes, x: Bytes): Bytes {
    if pad <= x then x[|pad|..] else x
  }

  function PaddingModule(pad: Bytes): Module {
    Module((iv: Block, x: Bytes) => pad + x, (x: Bytes) => Unprefix(pad, x))
  }

  lemma ToByteBack(b: bv8, offset: int)
    ensures ToByte(ToByte(b as int + offset) as int - offset) == b
  {
    var n := b as int;
    NarrowWiden((n + offset) % 256);
    ShiftBack(n, offset);
    WidenNarrow(b);
  }

  lemma ShiftBack(n: int, offset: int)
    requires 0 <= n < 256
    ensures ((n + offset) % 256 - offset) % 256 == n
  {}

  lemma ShiftReversesItself(offset: int)
    ensures ReversesItself(ShiftModule(offset))
  {
    hide ToByte;
    var m := ShiftModule(offset);
    forall iv: Block, x: Bytes
      ensures m.reverse(m.process(iv, x)) == x
    {
      assert m.reverse(m.process(iv, x)) == ShiftBytes(-offset, ShiftBytes(offset, x));
      forall i | 0 <= i < |x|
        ensures ShiftBytes(-offset, ShiftBytes(offset, x))[i] == x[i]
      {
        ToByteBack(x[i], offset);
      }
    }
  }

  lemma EncryptionReversesItself(key: Bytes)
    requires LegalKey(key)
    ensures ReversesItself(EncryptionModule(key))
  {
    hide EncryptMessage; hide DecryptMessage;
    forall iv: Block, x: Bytes
      ensures EncryptionModule(key).reverse(EncryptionModule(key).process(iv, x)) == x
    {
      MessageRoundTrip(key, iv, x);
    }
  }

  lemma PaddingReversesItself(pad: Bytes)
    ensures ReversesItself(PaddingModule(pad))
  {
    var m := PaddingModule(pad);
    forall iv: Block, x: Bytes
      ensures m.reverse(m.process(iv, x)) == x
    {
      assert m.process(iv, x) == pad + x;
    }
  }

  method ShiftProcess(offset: int, input: Bytes) returns (out: Bytes)
    ensures out == ShiftBytes(offset, input)
  {
    hide ToByte;
    out := input;
    var i := 0;
    while i < |out|
      invariant 0 <= i <= |out| == |input|
      invariant forall j :: 0 <= j < i ==> out[j] == ToByte(input[j] as int + offset)
      invariant forall j :: i <= j < |out| ==> out[j] == input[j]
    {
      out := out[i := ToByte(out[i] as int + offset)];
      i := i + 1;
    }
  }

  // ---------- The engine ----------

  // The data after every module in turn, the i-th drawing on the i-th random block.
  function ProcessAll(ms: seq<Module>, ivs: seq<Block>, data: Bytes): Bytes
    requires |ivs| == |ms|
  {
    if ms == [] then data
    else ProcessAll(ms[1..], ivs[1..], ms[0].process(ivs[0], data))
  }

  function ReverseAll(ms: seq<Module>, data: Bytes): Bytes {
    if ms == [] then data else ms[0].reverse(ReverseAll(ms[1..], data))
  }

  // An engine of modules that each reverse themselves decrypts whatever it encrypts.
  lemma {:induction false} EngineRoundTrip(ms: seq<Module>, ivs: seq<Block>, data: Bytes)
    requires |ivs| == |ms|
    requires forall m :: m in ms ==> ReversesItself(m)
    ensures ReverseAll(ms, ProcessAll(ms, ivs, data)) == data
  {
    if ms != [] {
      assert ms[0] in ms;
      EngineRoundTrip(ms[1..], ivs[1..], ms[0].process(ivs[0], data));
    }
  }

  class ProtocolEngine {
    var modules: seq<Module>

    constructor ()
      ensures modules == []
    {
      modules := [];
    }

    method AddModule(m: Module)
      modifies this
      ensures modules == old(modules) + [m]
    {
      modules := modules + [m];
    }

    method Encrypt(ivs: seq<Block>, data: Bytes) returns (out: Bytes)
      requires |ivs| == |modules|
      ensures out == ProcessAll(modules, ivs, data)
    {
      out := data;
      var i := 0;
      while i < |modules|
        invariant 0 <= i <= |modules|
        invariant ProcessAll(modules[i..], ivs[i..], out) == ProcessAll(modules, ivs, data)
      {
        assert modules[i..][1..] == modules[i + 1..] && ivs[i..][1..] == ivs[i + 1..];
        out := modules[i].process(ivs[i], out);
        i := i + 1;
      }
    }

    method Decrypt(data: Bytes) returns (out: Bytes)
      ensures out == ReverseAll(modules, data)
    {
      out := data;
      var i := |modules|;
      while i > 0
        invariant 0 <= i <= |modules|
        invariant out == ReverseAll(modules[i..], data)
      {
        i := i - 1;
        assert modules[i..][1..] == modules[i + 1..];
        out := modules[i].reverse(out);
      }
    }
  }

  // ---------- The engine both gateway and guard set up ----------

  function SharedKey(): Bytes { seq(32, _ => 0x01) }

  function SharedModules(): seq<Module> {
    [ShiftModule(8), EncryptionModule(SharedKey()), PaddingModule([0, 0, 0, 0])]
  }

  method GetProtocolEngine() returns (engine: ProtocolEngine)
    ensures fresh(engine) && engine.modules == SharedModules()
  {
    engine := new ProtocolEngine();
    engine.AddModule(ShiftModule(8));
    engine.AddModule(EncryptionModule(SharedKey()));
    engine.AddModule(PaddingModule([0, 0, 0, 0]));
  }

  // What the shared engine makes of data: every byte plus 8 modulo 256, enciphered under 32
  // bytes 01, with four zero bytes in front.
  lemma SharedEngineIsExact(ivs: seq<Block>, data: Bytes, shifted: Bytes, key: Bytes)
    requires |ivs| == 3
    requires |shifted| == |data| && forall i :: 0 <= i < |data| ==> shifted[i] as int == (data[i] as int + 8) % 256
    requires |key| == 32 && forall i :: 0 <= i < 32 ==> key[i] == 1
    ensures ProcessAll(SharedModules(), ivs, data) == [0, 0, 0, 0] + EncryptMessage(key, ivs[1], shifted)
  {
    hide EncryptMessage;
    assert key == SharedKey();
    forall i | 0 <= i < |data| ensures ShiftBytes(8, data)[i] == shifted[i] {
      WidenNarrow(shifted[i]);
    }
    assert ShiftBytes(8, data) == shifted;
    var ms := SharedModules();
    assert ms[1..][1..][1..] == [];
    assert ProcessAll(ms, ivs, data) == ProcessAll(ms[1..], ivs[1..], shifted);
    assert ProcessAll(ms[1..], ivs[1..], shifted)
        == ProcessAll(ms[1..][1..], ivs[1..][1..], EncryptMessage(key, ivs[1], shifted));
  }

  // The guard recovers whatever the gateway enciphered, under any initialisation vector.
  lemma SharedEngineRoundTrip(ivs: seq<Block>, data: Bytes)
    requires |ivs| == 3
    ensures ReverseAll(SharedModules(), ProcessAll(SharedModules(), ivs, data)) == data
  {
    ShiftReversesItself(8);
    EncryptionReversesItself(SharedKey());
    PaddingReversesItself([0, 0, 0, 0]);
    hide ReverseAll; hide ProcessAll; hide ReversesItself;
    EngineRoundTrip(SharedModules(), ivs, data);
  }
}
