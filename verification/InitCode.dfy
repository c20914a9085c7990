/** Init code of the deposit-wallet proxies: ERC-1967 proxies, once with a beacon and
    once with an embedded implementation (UUPS). */
module InitCode {
  import opened Bytes

  // The prefixes as numbers of ten bytes; bytes 1 and 2 are the operand of PUSH2.
  const BEACON_PREFIX: nat := 0x6100523D8160233D3973
  const UUPS_PREFIX: nat := 0x61003D3D8160233D3973

  const BEACON_BASE: nat := 0x52
  const UUPS_BASE: nat := 0x3D

  /** Where the runtime code starts inside the init code. */
  const RUNTIME: nat := 0x23

  // The constants, as the numbers that their bytes spell.
  const BEACON_CONST3: seq<byte> := BigEndian(0x60195155f3363d3d373d3d363d602036600436635c60da, 23)
  const BEACON_CONST2: seq<byte> := BigEndian(0x1b60e01b36527fa3f0ad74e5423aebfd80d3ef4346578335a9a72aeaee59ff6c, 32)
  const BEACON_CONST1: seq<byte> := BigEndian(0xb3582b35133d50545afa5036515af43d6000803e604d573d6000fd5b3d6000f3, 32)

  const UUPS_CONST2: seq<byte> := BigEndian(0x5155f3363d3d373d3d363d7f360894a13ba1a3210667c828492db98dca3e2076, 32)
  const UUPS_CONST1: seq<byte> := BigEndian(0xcc3735a920a3ca505d382bbc545af43d6000803e6038573d6000fd5b3d6000f3, 32)

  // The storage slots of ERC-1967 ("Proxy Storage Slots").
  const BEACON_SLOT: nat := 0xa3f0ad74e5423aebfd80d3ef4346578335a9a72aeaee59ff6cb3582b35133d50
  const IMPLEMENTATION_SLOT: nat := 0x360894a13ba1a3210667c828492db98dca3e2076cc3735a920a3ca505d382bbc

  datatype Built = Code(code: seq<byte>) | Panic

  /** The layout both builders produce: a ten-byte prefix whose number has the length of
      the arguments added at byte 2, then the address, the constants, the arguments. */
  function Layout(prefix: nat, target: seq<byte>, body: seq<byte>, args: seq<byte>): seq<byte> {
    BigEndian(prefix + |args| * Pow256(7), 10) + target + body + args
  }

  const BEACON_BODY: seq<byte> := BEACON_CONST3 + BEACON_CONST2 + BEACON_CONST1
  const UUPS_BODY: seq<byte> := [0x60, 0x09] + UUPS_CONST2 + UUPS_CONST1

  // ----- the builders --------------------------------------------------------------------

  /** Copies src into the buffer at pos, after what is `done` already. */
  method Copy(code: array<byte>, pos: nat, src: seq<byte>, ghost done: seq<byte>) returns (n: nat)
    requires pos + |src| <= code.Length && code[..pos] == done
    modifies code
    ensures n == |src|
    ensures code[..pos + n] == done + src
    ensures code[pos + n..] == old(code[pos + n..])
  {
    n := 0;
    while n < |src|
      invariant 0 <= n <= |src|
      invariant code[..pos] == done
      invariant code[pos..pos + n] == src[..n]
      invariant code[pos + n..] == old(code[pos + n..])
    {
      code[pos + n] := src[n];
      n := n + 1;
    }
    assert code[..pos + n] == code[..pos] + code[pos..pos + n];
  }

  lemma Regroup(p: seq<byte>, t: seq<byte>, x: seq<byte>, y: seq<byte>, z: seq<byte>, args: seq<byte>)
    ensures p + t + x + y + z + args == p + t + (x + y + z) + args
  {}

  /** The number into the first `size` bytes, least significant byte last. */
  method FillBytes(code: array<byte>, size: nat, value: nat)
    requires size <= code.Length && value < Pow256(size)
    modifies code
    ensures code[..size] == BigEndian(value, size) && code[size..] == old(code[size..])
  {
    var i, v := size, value;
    while i > 0
      invariant 0 <= i <= size
      invariant BigEndian(value, size) == BigEndian(v, i) + code[i..size]
      invariant code[size..] == old(code[size..])
    {
      assert BigEndian(v, i) == BigEndian(v / 256, i - 1) + [v % 256];
      ghost var tail := code[i..size];
      code[i - 1] := v % 256;
      assert code[i - 1..size] == [v % 256] + tail;
      v := v / 256;
      i := i - 1;
    }
  }

  method DepositWalletBeaconInitCode(beacon: seq<byte>, args: seq<byte>) returns (b: Built)
    requires |beacon| == 20
    ensures b == if BEACON_PREFIX + |args| * Pow256(7) < Pow256(10)
                 then Code(Layout(BEACON_PREFIX, beacon, BEACON_BODY, args)) else Panic
  {
    hide BigEndian, Pow256, BEACON_CONST3, BEACON_CONST2, BEACON_CONST1;
    var combined := BEACON_PREFIX + |args| * Pow256(7);
    var c3, c2, c1 := BEACON_CONST3, BEACON_CONST2, BEACON_CONST1;
    var code := new byte[10 + 20 + |c3| + |c2| + |c1| + |args|];
    if combined >= Pow256(10) {
      return Panic;
    }
    FillBytes(code, 10, combined);
    var pos := 10;
    ghost var head := BigEndian(combined, 10);
    var n := Copy(code, pos, beacon, head);
    pos := pos + n;
    n := Copy(code, pos, c3, head + beacon);
    pos := pos + n;
    n := Copy(code, pos, c2, head + beacon + c3);
    pos := pos + n;
    n := Copy(code, pos, c1, head + beacon + c3 + c2);
    pos := pos + n;
    n := Copy(code, pos, args, head + beacon + c3 + c2 + c1);
    Regroup(head, beacon, c3, c2, c1, args);
    assert code[..] == code[..pos + n];
    return Code(code[..]);
  }

  method DepositWalletInitCode(impl: seq<byte>, args: seq<byte>) returns (b: Built)
    requires |impl| == 20
    ensures b == if UUPS_PREFIX + |args| * Pow256(7) < Pow256(10)
                 then Code(Layout(UUPS_PREFIX, impl, UUPS_BODY, args)) else Panic
  {
    hide BigEndian, Pow256, UUPS_CONST2, UUPS_CONST1;
    var combined := UUPS_PREFIX + |args| * Pow256(7);
    var c2, c1 := UUPS_CONST2, UUPS_CONST1;
    var six009: seq<byte> := [0x60, 0x09];
    var code := new byte[10 + 20 + 2 + |c2| + |c1| + |args|];
    if combined >= Pow256(10) {
      return Panic;
    }
    FillBytes(code, 10, combined);
    var pos := 10;
    ghost var head := BigEndian(combined, 10);
    var n := Copy(code, pos, impl, head);
    pos := pos + n;
    n := Copy(code, pos, six009, head + impl);
    pos := pos + n;
    n := Copy(code, pos, c2, head + impl + six009);
    pos := pos + n;
    n := Copy(code, pos, c1, head + impl + six009 + c2);
    pos := pos + n;
    n := Copy(code, pos, args, head + impl + six009 + c2 + c1);
    Regroup(head, impl, six009, c2, c1, args);
    assert code[..] == code[..pos + n];
    return Code(code[..]);
  }

  // ----- the operand ------------------------------------------------------------------------

  /** The last seven bytes of both prefixes. */
  const TAIL: nat := 0x3D8160233D3973
  const TAIL_BYTES: seq<byte> := [0x3D, 0x81, 0x60, 0x23, 0x3D, 0x39, 0x73]

  /** The prefix with the length added is three bytes of opcode and operand followed by
      the seven untouched bytes. */
  lemma PrefixBytes(beacon: bool, n: nat)
    ensures BigEndian(Prefix(beacon) + n * Pow256(7), 10) == BigEndian(0x610000 + Base(beacon) + n, 3) + TAIL_BYTES
  {
    assert Pow256(7) == 0x100_0000_0000_0000;
    TailBytes();
    assert Prefix(beacon) + n * Pow256(7) == (0x610000 + Base(beacon) + n) * Pow256(7) + TAIL;
    hide BigEndian;
    BigEndianSplits(0x610000 + Base(beacon) + n, TAIL, 3, 7);
  }

  lemma TailBytes()
    ensures BigEndian(TAIL, 7) == TAIL_BYTES
  {
    assert BigEndian(0x3D, 1) == [0x3D];
    assert BigEndian(0x3D81, 2) == [0x3D, 0x81];
    assert BigEndian(0x3D8160, 3) == [0x3D, 0x81, 0x60];
    assert BigEndian(0x3D816023, 4) == [0x3D, 0x81, 0x60, 0x23];
    assert BigEndian(0x3D8160233D, 5) == [0x3D, 0x81, 0x60, 0x23, 0x3D];
    assert BigEndian(0x3D8160233D39, 6) == [0x3D, 0x81, 0x60, 0x23, 0x3D, 0x39];
  }

  function Base(beacon: bool): nat {
    if beacon then BEACON_BASE else UUPS_BASE
  }

  function Body(beacon: bool): seq<byte> {
    if beacon then BEACON_BODY else UUPS_BODY
  }

  function Prefix(beacon: bool): nat {
    if beacon then BEACON_PREFIX else UUPS_PREFIX
  }

  function TheLayout(beacon: bool, target: seq<byte>, args: seq<byte>): seq<byte> {
    Layout(Prefix(beacon), target, Body(beacon), args)
  }

  /** Where the runtime keeps the number of its storage slot. */
  function SlotOffset(beacon: bool): byte {
    if beacon then 0x19 else 0x09
  }

  function Slot(beacon: bool): nat {
    if beacon then BEACON_SLOT else IMPLEMENTATION_SLOT
  }

  /** What follows the address: four instructions, then the runtime, which holds the
      ERC-1967 slot at the offset that the first of them pushes. */
  lemma BodyHoldsSlot(beacon: bool)
    ensures var body, at := Body(beacon), SlotOffset(beacon);
            && |body| == Base(beacon) + 5
            && body[..5] == [0x60, at, 0x51, 0x55, 0xF3]
            && at + 37 <= |body|
            && body[5 + at..5 + at + 32] == BigEndian(Slot(beacon), 32)
  {
    if beacon {
      BeaconPieces();
      hide BEACON_CONST3, BEACON_CONST2, BEACON_CONST1, BigEndian;
      assert BEACON_BODY[..5] == BEACON_CONST3[..5];
      assert BEACON_BODY[30..62] == BEACON_CONST2[7..] + BEACON_CONST1[..7];
    } else {
      UupsPieces();
      hide UUPS_CONST2, UUPS_CONST1, BigEndian;
      assert UUPS_BODY[..5] == [0x60, 0x09] + UUPS_CONST2[..3];
      assert UUPS_BODY[14..46] == UUPS_CONST2[12..] + UUPS_CONST1[..12];
    }
  }

  lemma Powers()
    ensures Pow256(7) == 0x100000000000000 && Pow256(12) == 0x1000000000000000000000000 && Pow256(18) == 0x1000000000000000000000000000000000000
    ensures Pow256(20) == 0x10000000000000000000000000000000000000000 && Pow256(25) == 0x100000000000000000000000000000000000000000000000000
    ensures Pow256(29) == 0x10000000000000000000000000000000000000000000000000000000000
  {
    assert Pow256(6) == 0x1000000000000;
    Pow256Adds(6, 1);
    Pow256Adds(6, 6);
    Pow256Adds(12, 6);
    Pow256Adds(18, 2);
    Pow256Adds(18, 7);
    Pow256Adds(25, 4);
  }

  /** Splits a spelled number into the spellings of its first n and last m bytes. */
  lemma Split(whole: nat, hi: nat, lo: nat, n: nat, m: nat)
    requires lo < Pow256(m) && whole == hi * Pow256(m) + lo
    ensures BigEndian(whole, n + m)[..n] == BigEndian(hi, n)
    ensures BigEndian(whole, n + m)[n..] == BigEndian(lo, m)
    ensures BigEndian(whole, n + m) == BigEndian(hi, n) + BigEndian(lo, m)
  {
    BigEndianSplits(hi, lo, n, m);
  }

  lemma Opcodes()
    ensures BigEndian(0x60195155f3, 5) == [0x60, 0x19, 0x51, 0x55, 0xF3]
    ensures BigEndian(0x5155f3, 3) == [0x51, 0x55, 0xF3]
  {
    assert BigEndian(0x601951, 3) == [0x60, 0x19, 0x51];
    assert BigEndian(0x5155, 2) == [0x51, 0x55];
  }

  lemma BeaconPieces()
    ensures BEACON_CONST3[..5] == [0x60, 0x19, 0x51, 0x55, 0xF3]
    ensures BEACON_CONST2[7..] + BEACON_CONST1[..7] == BigEndian(BEACON_SLOT, 32)
  {
    Powers();
    Opcodes();
    hide BigEndian, Pow256;
    Split(0x60195155f3363d3d373d3d363d602036600436635c60da, 0x60195155f3, 0x363d3d373d3d363d602036600436635c60da, 5, 18);
    Split(0x1b60e01b36527fa3f0ad74e5423aebfd80d3ef4346578335a9a72aeaee59ff6c,
          0x1b60e01b36527f, 0xa3f0ad74e5423aebfd80d3ef4346578335a9a72aeaee59ff6c, 7, 25);
    Split(0xb3582b35133d50545afa5036515af43d6000803e604d573d6000fd5b3d6000f3,
          0xb3582b35133d50, 0x545afa5036515af43d6000803e604d573d6000fd5b3d6000f3, 7, 25);
    Split(BEACON_SLOT, 0xa3f0ad74e5423aebfd80d3ef4346578335a9a72aeaee59ff6c, 0xb3582b35133d50, 25, 7);
  }

  lemma UupsPieces()
    ensures UUPS_CONST2[..3] == [0x51, 0x55, 0xF3]
    ensures UUPS_CONST2[12..] + UUPS_CONST1[..12] == BigEndian(IMPLEMENTATION_SLOT, 32)
  {
    Powers();
    Opcodes();
    hide BigEndian, Pow256;
    Split(0x5155f3363d3d373d3d363d7f360894a13ba1a3210667c828492db98dca3e2076,
          0x5155f3, 0x363d3d373d3d363d7f360894a13ba1a3210667c828492db98dca3e2076, 3, 29);
    Split(0x5155f3363d3d373d3d363d7f360894a13ba1a3210667c828492db98dca3e2076,
          0x5155f3363d3d373d3d363d7f, 0x360894a13ba1a3210667c828492db98dca3e2076, 12, 20);
    Split(0xcc3735a920a3ca505d382bbc545af43d6000803e6038573d6000fd5b3d6000f3,
          0xcc3735a920a3ca505d382bbc, 0x545af43d6000803e6038573d6000fd5b3d6000f3, 12, 20);
    Split(IMPLEMENTATION_SLOT, 0x360894a13ba1a3210667c828492db98dca3e2076, 0xcc3735a920a3ca505d382bbc, 20, 12);
  }

  /** The first ten bytes, in general: three for opcode and operand, seven untouched. */
  lemma HeadOfLayout(beacon: bool, target: seq<byte>, args: seq<byte>)
    ensures TheLayout(beacon, target, args)[..10] == BigEndian(0x610000 + Base(beacon) + |args|, 3) + TAIL_BYTES
    ensures |TheLayout(beacon, target, args)| == 10 + |target| + Base(beacon) + 5 + |args|
  {
    hide Body, BigEndian, Pow256, Slot, Prefix;
    PrefixBytes(beacon, |args|);
    BodyHoldsSlot(beacon);
  }

  lemma ThreeBytes(first: byte, operand: nat)
    requires operand < 0x1_0000
    ensures BigEndian(first * 0x1_0000 + operand, 3) == [first] + BigEndian(operand, 2)
    ensures operand < Pow256(2)
  {
    assert Pow256(1) == 0x100 && Pow256(2) == 0x1_0000;
    assert BigEndian(first as nat, 1) == [first];
    hide BigEndian, Pow256;
    BigEndianSplits(first as nat, operand, 1, 2);
  }

  /** For arguments short enough, adding their length changes only the two operand bytes
      of PUSH2, and the operand is the number of bytes from the runtime offset to the
      end of the init code. */
  lemma OperandCountsTheRuntime(beacon: bool, target: seq<byte>, args: seq<byte>)
    requires |target| == 20
    requires Base(beacon) + |args| < 0x1_0000
    ensures var code := TheLayout(beacon, target, args);
            var operand := Base(beacon) + |args|;
            && code[..10] == [0x61] + BigEndian(operand, 2) + TAIL_BYTES
            && Word(code[1..3]) == operand == |code| - RUNTIME
  {
    var operand := Base(beacon) + |args|;
    HeadOfLayout(beacon, target, args);
    hide TheLayout;
    ThreeBytes(0x61, operand);
    WordOfBigEndian(operand, 2);
    var code := TheLayout(beacon, target, args);
    hide BigEndian;
    assert code[1..3] == code[..10][1..3] == BigEndian(operand, 2);
  }

  /** The bound is exact: as soon as the length no longer fits, the carry changes the
      PUSH2 opcode itself. */
  lemma OpcodeSurvivesIffOperandFits(beacon: bool, target: seq<byte>, args: seq<byte>)
    requires |target| == 20
    requires 0x610000 + Base(beacon) + |args| < 0x100_0000
    ensures TheLayout(beacon, target, args)[0] == 0x61 <==> Base(beacon) + |args| < 0x1_0000
  {
    var n := 0x610000 + Base(beacon) + |args|;
    HeadOfLayout(beacon, target, args);
    hide TheLayout;
    ThreeBytes(n / 0x1_0000, n % 0x1_0000);
    hide BigEndian;
    assert TheLayout(beacon, target, args)[0] == TheLayout(beacon, target, args)[..10][0];
  }
}
