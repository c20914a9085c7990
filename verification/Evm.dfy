/** The few instructions of the Ethereum virtual machine (Yellow Paper, Appendix H.2)
    that a proxy's init code uses, and what running that init code does. Gas is not
    modelled. */
module Evm {
  import opened Bytes
  import opened InitCode

  /** The stack has its top first. */
  datatype Frame = Frame(pc: nat, stack: seq<nat>, memory: seq<byte>, storage: map<nat, nat>)

  datatype Status = Running(frame: Frame) | Returned(data: seq<byte>, storage: map<nat, nat>) | Failed

  /** n bytes from an offset, zeros beyond the end. */
  function Read(bs: seq<byte>, off: nat, n: nat): (r: seq<byte>)
    ensures |r| == n
    ensures off + n <= |bs| ==> r == bs[off..off + n]
  {
    seq(n, i requires 0 <= i < n => if off + i < |bs| then bs[off + i] else 0)
  }

  function Write(mem: seq<byte>, off: nat, data: seq<byte>): seq<byte> {
    Read(mem, 0, off) + data + if off + |data| <= |mem| then mem[off + |data|..] else []
  }

  function Step(code: seq<byte>, f: Frame): Status {
    var op := if f.pc < |code| then code[f.pc] as int else 0;
    var s := f.stack;
    var next := f.(pc := f.pc + 1);
    if 0x60 <= op <= 0x7F then                       // PUSH1 to PUSH32
      var n := op - 0x5F;
      Running(f.(pc := f.pc + 1 + n, stack := [Word(Read(code, f.pc + 1, n))] + s))
    else if op == 0x3D then                          // RETURNDATASIZE: no call was made
      Running(next.(stack := [0] + s))
    else if op == 0x81 && |s| >= 2 then              // DUP2
      Running(next.(stack := [s[1]] + s))
    else if op == 0x39 && |s| >= 3 then              // CODECOPY
      Running(next.(stack := s[3..], memory := Write(f.memory, s[0], Read(code, s[1], s[2]))))
    else if op == 0x51 && |s| >= 1 then              // MLOAD
      Running(next.(stack := [Word(Read(f.memory, s[0], 32))] + s[1..]))
    else if op == 0x55 && |s| >= 2 then              // SSTORE
      Running(next.(stack := s[2..], storage := f.storage[s[0] := s[1]]))
    else if op == 0xF3 && |s| >= 2 then              // RETURN
      Returned(Read(f.memory, s[0], s[1]), f.storage)
    else Failed
  }

  function Execute(code: seq<byte>, f: Frame, steps: nat): Status
    decreases steps
  {
    if steps == 0 then Running(f) else
    match Step(code, f)
    case Running(g) => Execute(code, g, steps - 1)
    case done => done
  }

  const ENTRY := Frame(0, [], [], map[])

  /** The shape of the builders' output: a runtime of L bytes at offset 0x23. */
  ghost predicate IsProxyInit(code: seq<byte>, L: nat, target: seq<byte>, at: byte) {
    && |code| == RUNTIME + L && |target| == 20 && at + 32 <= L
    && code[0] == 0x61 && Word(code[1..3]) == L
    && code[3..10] == TAIL_BYTES
    && code[10..30] == target
    && code[30..35] == [0x60, at, 0x51, 0x55, 0xF3]
  }

  lemma WordOfOne(b: byte)
    ensures Word([b]) == b as nat
  {
    assert [b][..0] == [];
  }

  /** The first half: copies the runtime to memory, leaving its length for RETURN. */
  lemma CopiesRuntime(code: seq<byte>, L: nat, target: seq<byte>, at: byte, steps: nat)
    requires IsProxyInit(code, L, target, at)
    ensures Execute(code, ENTRY, steps + 6) == Execute(code, Frame(9, [0, L], code[RUNTIME..], map[]), steps)
  {
    assert code[3] == TAIL_BYTES[0] && code[4] == TAIL_BYTES[1] && code[5] == TAIL_BYTES[2]
        && code[6] == TAIL_BYTES[3] && code[7] == TAIL_BYTES[4] && code[8] == TAIL_BYTES[5];
    WordOfOne(0x23);
    assert code[6..7] == [0x23];
    var f1 := Frame(3, [L], [], map[]);
    var f2 := Frame(4, [0, L], [], map[]);
    var f3 := Frame(5, [L, 0, L], [], map[]);
    var f4 := Frame(7, [0x23, L, 0, L], [], map[]);
    var f5 := Frame(8, [0, 0x23, L, 0, L], [], map[]);
    var f6 := Frame(9, [0, L], code[RUNTIME..], map[]);
    assert Step(code, ENTRY) == Running(f1);
    assert Step(code, f1) == Running(f2);
    assert Step(code, f2) == Running(f3);
    assert Step(code, f3) == Running(f4);
    assert Step(code, f4) == Running(f5);
    assert Write([], 0, code[RUNTIME..]) == code[RUNTIME..];
    assert Step(code, f5) == Running(f6);
    hide Step;
    assert Execute(code, f5, steps + 1) == Execute(code, f6, steps);
    assert Execute(code, f4, steps + 2) == Execute(code, f5, steps + 1);
    assert Execute(code, f3, steps + 3) == Execute(code, f4, steps + 2);
    assert Execute(code, f2, steps + 4) == Execute(code, f3, steps + 3);
    assert Execute(code, f1, steps + 5) == Execute(code, f2, steps + 4);
  }

  /** The second half: stores the address under the slot that the runtime itself holds
      at offset `at`, and returns the runtime. */
  lemma StoresAndReturns(code: seq<byte>, L: nat, target: seq<byte>, at: byte, steps: nat)
    requires IsProxyInit(code, L, target, at)
    ensures var runtime := code[RUNTIME..];
            Execute(code, Frame(9, [0, L], runtime, map[]), steps + 5)
              == Returned(runtime, map[Word(runtime[at..at + 32]) := Word(target)])
  {
    var runtime := code[RUNTIME..];
    assert code[9] == TAIL_BYTES[6] == 0x73;
    var body := code[30..35];
    assert code[30] == body[0] && code[31] == body[1] && code[32] == body[2] && code[33] == body[3] && code[34] == body[4];
    WordOfOne(at);
    assert code[31..32] == [at];
    var slot := Word(runtime[at..at + 32]);
    var f0 := Frame(9, [0, L], runtime, map[]);
    var f1 := Frame(30, [Word(target), 0, L], runtime, map[]);
    var f2 := Frame(32, [at as nat, Word(target), 0, L], runtime, map[]);
    var f3 := Frame(33, [slot, Word(target), 0, L], runtime, map[]);
    var f4 := Frame(34, [0, L], runtime, map[slot := Word(target)]);
    assert Step(code, f0) == Running(f1);
    assert Step(code, f1) == Running(f2);
    assert Step(code, f2) == Running(f3);
    assert Step(code, f3) == Running(f4);
    assert Step(code, f4) == Returned(runtime, map[slot := Word(target)]);
    hide Step;
    assert Execute(code, f3, steps + 2) == Execute(code, f4, steps + 1);
    assert Execute(code, f2, steps + 3) == Execute(code, f3, steps + 2);
    assert Execute(code, f1, steps + 4) == Execute(code, f2, steps + 3);
  }

  /** Running the init code that either builder produces, for arguments that fit, stores
      the beacon (or the implementation) under its ERC-1967 slot and deploys exactly the
      bytes from offset 0x23 to the end -- the arguments included -- within 11 steps. */
  lemma InitCodeDeploysRuntime(beacon: bool, target: seq<byte>, args: seq<byte>, steps: nat)
    requires steps >= 11
    requires |target| == 20 && Base(beacon) + |args| < 0x1_0000
    ensures var code := TheLayout(beacon, target, args);
            |code| >= RUNTIME &&
            Execute(code, ENTRY, steps) == Returned(code[RUNTIME..], map[Slot(beacon) := Word(target)])
  {
    hide Execute, TheLayout, Slot, Word;
    var code := TheLayout(beacon, target, args);
    var L := Base(beacon) + |args|;
    LayoutIsProxyInit(beacon, target, args);
    CopiesRuntime(code, L, target, SlotOffset(beacon), steps - 6);
    StoresAndReturns(code, L, target, SlotOffset(beacon), steps - 11);
  }

  lemma LayoutIsProxyInit(beacon: bool, target: seq<byte>, args: seq<byte>)
    requires |target| == 20 && Base(beacon) + |args| < 0x1_0000
    ensures var code, at := TheLayout(beacon, target, args), SlotOffset(beacon);
            && IsProxyInit(code, Base(beacon) + |args|, target, at)
            && Word(code[RUNTIME..][at..at + 32]) == Slot(beacon)
  {
    hide Body, BigEndian, Pow256, Prefix;
    var code, at, body := TheLayout(beacon, target, args), SlotOffset(beacon), Body(beacon);
    OperandCountsTheRuntime(beacon, target, args);
    BodyHoldsSlot(beacon);
    SlotFits(beacon);
    WordOfBigEndian(Slot(beacon), 32);
    assert code[3..10] == code[..10][3..];
    assert code[0] == code[..10][0];
    var head := BigEndian(Prefix(beacon) + |args| * Pow256(7), 10);
    assert code == head + target + body + args;
    TailOfLayout(head, target, body, args, at);
  }

  lemma TailOfLayout(head: seq<byte>, target: seq<byte>, body: seq<byte>, args: seq<byte>, at: nat)
    requires |head| == 10 && |target| == 20 && at + 37 <= |body|
    ensures var code := head + target + body + args;
            && code[10..30] == target
            && code[30..35] == body[..5]
            && code[RUNTIME..][at..at + 32] == body[5 + at..5 + at + 32]
  {
    var code := head + target + body + args;
    assert code[30..] == body + args;
    assert code[RUNTIME..] == body[5..] + args;
    assert body[5..][at..at + 32] == body[5 + at..5 + at + 32];
  }

  lemma SlotFits(beacon: bool)
    ensures Slot(beacon) < Pow256(32)
  {
    Powers();
    Pow256Adds(25, 7);
  }
}
