/**
 * The 16-bit P-code instruction reader (misc/pascal/insn16/libinsn/pgetopcode.c).
 *
 * An instruction is an opcode byte, followed by a one-byte operand when the
 * opcode carries the o8 flag bit and by a big-endian two-byte operand when
 * it carries the o16 flag bit.  The reader pulls bytes from the program
 * section of a loaded POFF file through a cursor, and keeps a latch that
 * records that the oEND opcode has been read: once latched, every further
 * call reports oEND without touching the cursor, until the reader is reset.
 */
module InsnDecoder {

  /** What the program-section cursor hands back: the next byte, or EOF. */
  datatype ProgByte = Eof | Byte(value: bv8)

  /**
   * The instruction-set constants the reader depends on: the end opcode
   * oEND and the operand flag bits o8 and o16.  Their values live in the
   * instruction-set header, which is not part of this model, so every
   * property below holds whatever they are.
   */
  datatype OpCodes = OpCodes(endOp: bv8, o8: bv8, o16: bv8)

  /** OPTYPE: a decoded instruction. */
  datatype OpType = OpType(op: bv8, arg1: bv8, arg2: bv16)

  /** The reader's state: the program cursor's position and the end latch. */
  datatype ReaderState = ReaderState(pos: nat, endIn: bool)

  /** One call of the reader: the instruction, the size it returns, the state afterwards. */
  datatype Decoded = Decoded(insn: OpType, opsize: nat, next: ReaderState)

  /** poffGetProgByte: the byte at `pos`, or EOF once the section is exhausted. */
  function ByteAt(prog: seq<bv8>, pos: nat): (c: ProgByte)
    ensures c.Eof? <==> pos >= |prog|
  {
    if pos < |prog| then Byte(prog[pos]) else Eof
  }

  /** The cursor position after one poffGetProgByte: one further, but never past the end. */
  function After(prog: seq<bv8>, pos: nat): (p: nat)
    requires pos <= |prog|
    ensures p <= |prog|
    ensures p == if pos < |prog| then pos + 1 else |prog|
  {
    if pos < |prog| then pos + 1 else pos
  }

  predicate HasArg8(k: OpCodes, op: bv8) {
    op & k.o8 != 0
  }

  predicate HasArg16(k: OpCodes, op: bv8) {
    op & k.o16 != 0
  }

  /**
   * The value an operand read yields.  EOF is the C int -1: stored in the
   * one-byte operand it reads 0xff, and shifted into the high byte of the
   * two-byte operand it leaves 0xff there (two's complement).
   */
  function OperandByte(c: ProgByte): (b: bv8)
    ensures c.Byte? ==> b == c.value
  {
    match c
    case Byte(b) => b
    case Eof => 0xff
  }

  /** The two-byte operand `(hi << 8) | (lo & 0xff)`: high byte first. */
  function Word(hi: bv8, lo: bv8): (w: bv16)
    ensures HighByte(w) == hi && LowByte(w) == lo
  {
    (hi as bv16 << 8) | (lo as bv16 & 0xff)
  }

  function HighByte(w: bv16): bv8 {
    (w >> 8) as bv8
  }

  function LowByte(w: bv16): bv8 {
    (w & 0xff) as bv8
  }

  /** The instruction reported at the end of the stream. */
  function EndInsn(k: OpCodes): OpType {
    OpType(k.endOp, 0, 0)
  }

  /** The size the reader returns for opcode `op`: one byte, plus its operands. */
  function OpSize(k: OpCodes, op: bv8): (n: nat)
    ensures 1 <= n <= 4
    ensures n == 1 <==> !HasArg8(k, op) && !HasArg16(k, op)
  {
    1 + (if HasArg8(k, op) then 1 else 0) + (if HasArg16(k, op) then 2 else 0)
  }

  /**
   * insn_GetOpCode as a function of the reader's state.  The returned size
   * is 1 at the end of the stream, although no byte is consumed there.
   * DecodeCases states what it returns.
   */
  function Decode(k: OpCodes, prog: seq<bv8>, s: ReaderState): (r: Decoded)
    requires s.pos <= |prog|
    ensures 1 <= r.opsize <= 4
    ensures s.pos <= r.next.pos <= |prog|
  {
    var c := if !s.endIn then ByteAt(prog, s.pos) else Eof;
    var p0 := if !s.endIn then After(prog, s.pos) else s.pos;
    if s.endIn || c == Eof then
      Decoded(EndInsn(k), 1, ReaderState(p0, s.endIn))
    else
      var op := c.value;
      var arg1 := if HasArg8(k, op) then OperandByte(ByteAt(prog, p0)) else 0;
      var p1 := if HasArg8(k, op) then After(prog, p0) else p0;
      var arg2 := if HasArg16(k, op)
                  then Word(OperandByte(ByteAt(prog, p1)), OperandByte(ByteAt(prog, After(prog, p1))))
                  else 0;
      var p2 := if HasArg16(k, op) then After(prog, After(prog, p1)) else p1;
      Decoded(OpType(op, arg1, arg2), OpSize(k, op), ReaderState(p2, op == k.endOp))
  }

  /** What one call of the reader returns, case by case. */
  lemma DecodeCases(k: OpCodes, prog: seq<bv8>, s: ReaderState)
    requires s.pos <= |prog|
    // latched, or physically at the end: oEND/0/0, nothing read, and the
    // latch is left as it was (physical end does not set it)
    ensures s.endIn || s.pos == |prog| ==> Decode(k, prog, s) == Decoded(EndInsn(k), 1, s)
    // otherwise the opcode is the next byte and the latch records whether it is oEND
    ensures !s.endIn && s.pos < |prog| ==>
      var r := Decode(k, prog, s);
      && r.insn.op == prog[s.pos]
      && r.next.endIn == (prog[s.pos] == k.endOp)
      && r.opsize == OpSize(k, prog[s.pos])
      // the cursor advances by the returned size exactly when the operands are all there
      && (r.next.pos == s.pos + r.opsize <==> s.pos + r.opsize <= |prog|)
    // operands that are there are read as they stand; absent flags give zero
    ensures !s.endIn && s.pos < |prog| && s.pos + Decode(k, prog, s).opsize <= |prog| ==>
      var r := Decode(k, prog, s);
      && r.insn.arg1 == (if HasArg8(k, prog[s.pos]) then prog[s.pos + 1] else 0)
      && r.insn.arg2 == (if HasArg16(k, prog[s.pos])
                         then Word(prog[r.next.pos - 2], prog[r.next.pos - 1]) else 0)
  {
  }

  // ---------------------------------------------------------------------
  // The encoding the reader inverts
  // ---------------------------------------------------------------------

  /** An instruction whose operands are zero wherever its opcode has no operand. */
  predicate WellFormed(k: OpCodes, insn: OpType) {
    && (!HasArg8(k, insn.op) ==> insn.arg1 == 0)
    && (!HasArg16(k, insn.op) ==> insn.arg2 == 0)
  }

  /** The bytes of one instruction: opcode, then arg1 if o8, then arg2 high byte first if o16. */
  function Encode(k: OpCodes, insn: OpType): (bytes: seq<bv8>)
    ensures |bytes| == OpSize(k, insn.op)
    ensures bytes[0] == insn.op
  {
    [insn.op]
    + (if HasArg8(k, insn.op) then [insn.arg1] else [])
    + (if HasArg16(k, insn.op) then [HighByte(insn.arg2), LowByte(insn.arg2)] else [])
  }

  /** The bytes of a sequence of instructions, one after the other. */
  function EncodeAll(k: OpCodes, insns: seq<OpType>): (bytes: seq<bv8>)
    ensures |insns| > 0 ==> |bytes| > 0
  {
    if insns == [] then [] else Encode(k, insns[0]) + EncodeAll(k, insns[1..])
  }

  /**
   * An unlatched reader positioned on the bytes of a well-formed
   * instruction returns that instruction and its size, moves past it, and
   * latches exactly when it is oEND.
   */
  lemma DecodeAt(k: OpCodes, insn: OpType, prog: seq<bv8>, n: nat)
    requires WellFormed(k, insn)
    requires n + OpSize(k, insn.op) <= |prog|
    requires prog[n] == insn.op
    requires HasArg8(k, insn.op) ==> prog[n + 1] == insn.arg1
    requires var p1 := if HasArg8(k, insn.op) then n + 2 else n + 1;
      HasArg16(k, insn.op) ==> prog[p1] == HighByte(insn.arg2) && prog[p1 + 1] == LowByte(insn.arg2)
    ensures Decode(k, prog, ReaderState(n, false))
         == Decoded(insn, OpSize(k, insn.op), ReaderState(n + OpSize(k, insn.op), insn.op == k.endOp))
  {
    if HasArg16(k, insn.op) {
      WordOfBytes(insn.arg2);
    }
  }

  /**
   * Decoding undoes encoding: wherever an encoded instruction stands in the
   * program, an unlatched reader positioned on it returns that instruction,
   * returns its encoded length, moves past it, and latches exactly when it
   * is oEND.
   */
  lemma {:induction false} DecodeEncode(k: OpCodes, insn: OpType, pre: seq<bv8>, post: seq<bv8>)
    requires WellFormed(k, insn)
    ensures var e := Encode(k, insn);
      Decode(k, pre + e + post, ReaderState(|pre|, false))
      == Decoded(insn, |e|, ReaderState(|pre| + |e|, insn.op == k.endOp))
  {
    var e := Encode(k, insn);
    var prog := pre + e + post;
    var n := |pre|;
    var p1 := if HasArg8(k, insn.op) then n + 2 else n + 1;
    assert prog[n] == e[0];
    assert HasArg8(k, insn.op) ==> prog[n + 1] == e[1] == insn.arg1;
    assert HasArg16(k, insn.op) ==> prog[p1] == e[p1 - n] && prog[p1 + 1] == e[p1 + 1 - n];
    DecodeAt(k, insn, prog, n);
  }

  /** A two-byte operand is rebuilt from its high and low bytes. */
  lemma WordOfBytes(w: bv16)
    ensures Word(HighByte(w), LowByte(w)) == w
  {
  }

  // ---------------------------------------------------------------------
  // Repeated calls
  // ---------------------------------------------------------------------

  /** The instructions returned by `n` successive calls, and the state after them. */
  datatype Trace = Trace(insns: seq<OpType>, final: ReaderState)

  function Run(k: OpCodes, prog: seq<bv8>, s: ReaderState, n: nat): (t: Trace)
    requires s.pos <= |prog|
    ensures s.pos <= t.final.pos <= |prog|
    decreases n
  {
    if n == 0 then Trace([], s)
    else
      var d := Decode(k, prog, s);
      var rest := Run(k, prog, d.next, n - 1);
      Trace([d.insn] + rest.insns, rest.final)
  }

  /** `n` end instructions. */
  function Ends(k: OpCodes, n: nat): (e: seq<OpType>)
    ensures |e| == n && forall i :: 0 <= i < n ==> e[i] == EndInsn(k)
  {
    seq(n, _ => EndInsn(k))
  }

  /**
   * Once the latch is set, or the cursor stands at the physical end, every
   * further call returns oEND and neither moves the cursor nor changes the
   * latch.
   */
  lemma {:induction false} EndIsStable(k: OpCodes, prog: seq<bv8>, s: ReaderState, n: nat)
    requires s.pos <= |prog|
    requires s.endIn || s.pos == |prog|
    ensures Run(k, prog, s, n) == Trace(Ends(k, n), s)
    decreases n
  {
    if n > 0 {
      EndIsStable(k, prog, s, n - 1);
      assert Ends(k, n) == [EndInsn(k)] + Ends(k, n - 1);
    }
  }

  /** `a + b` calls are `a` calls followed by `b` calls from where they left off. */
  lemma {:induction false} RunSplit(k: OpCodes, prog: seq<bv8>, s: ReaderState, a: nat, b: nat)
    requires s.pos <= |prog|
    ensures var first := Run(k, prog, s, a);
      var second := Run(k, prog, first.final, b);
      Run(k, prog, s, a + b) == Trace(first.insns + second.insns, second.final)
    decreases a
  {
    if a > 0 {
      var d := Decode(k, prog, s);
      RunSplit(k, prog, d.next, a - 1, b);
      assert a + b - 1 == (a - 1) + b;
      var rest := Run(k, prog, d.next, a - 1);
      var second := Run(k, prog, rest.final, b);
      assert [d.insn] + (rest.insns + second.insns) == ([d.insn] + rest.insns) + second.insns;
    } else {
      assert [] + Run(k, prog, s, b).insns == Run(k, prog, s, b).insns;
    }
  }

  /** Instructions a program may hold before its end: well formed and not oEND. */
  predicate Body(k: OpCodes, insns: seq<OpType>) {
    forall i :: 0 <= i < |insns| ==> WellFormed(k, insns[i]) && insns[i].op != k.endOp
  }

  /**
   * Decoding an encoded instruction sequence, wherever it stands, returns
   * its instructions one by one and leaves the cursor just after it, with
   * the latch still clear.
   */
  lemma {:induction false} DecodeEncodeAll(k: OpCodes, insns: seq<OpType>, pre: seq<bv8>, post: seq<bv8>)
    requires Body(k, insns)
    ensures var prog := pre + EncodeAll(k, insns) + post;
      Run(k, prog, ReaderState(|pre|, false), |insns|)
      == Trace(insns, ReaderState(|pre| + |EncodeAll(k, insns)|, false))
    decreases |insns|
  {
    if insns != [] {
      var e := Encode(k, insns[0]);
      var rest := EncodeAll(k, insns[1..]);
      var prog := pre + EncodeAll(k, insns) + post;
      var s1 := ReaderState(|pre| + |e|, false);
      assert Decode(k, prog, ReaderState(|pre|, false)) == Decoded(insns[0], |e|, s1) by {
        assert prog == pre + e + (rest + post);
        DecodeEncode(k, insns[0], pre, rest + post);
      }
      var tail := insns[1..];
      assert Run(k, prog, s1, |tail|) == Trace(tail, ReaderState(|pre| + |e| + |rest|, false)) by {
        var mid := pre + e;
        assert prog == mid + rest + post;
        assert s1 == ReaderState(|mid|, false);
        BodyTail(k, insns);
        DecodeEncodeAll(k, tail, mid, post);
      }
      assert [insns[0]] + insns[1..] == insns;
    }
  }

  /** The instructions after the first of a body form a body. */
  lemma BodyTail(k: OpCodes, insns: seq<OpType>)
    requires Body(k, insns) && insns != []
    ensures Body(k, insns[1..])
  {
    forall i | 0 <= i < |insns[1..]|
      ensures WellFormed(k, insns[1..][i]) && insns[1..][i].op != k.endOp
    {
      assert insns[1..][i] == insns[i + 1];
    }
  }

  /**
   * A Pascal program: its instructions followed by an oEND terminator.  The
   * reader returns the instructions and then the terminator, stops just
   * after it, and has the latch set.
   */
  lemma {:induction false} ProgramDecodes(k: OpCodes, insns: seq<OpType>, term: OpType, post: seq<bv8>)
    requires Body(k, insns)
    requires term.op == k.endOp && WellFormed(k, term)
    ensures var code := EncodeAll(k, insns) + Encode(k, term);
      Run(k, code + post, ReaderState(0, false), |insns| + 1)
      == Trace(insns + [term], ReaderState(|code|, true))
  {
    var body := EncodeAll(k, insns);
    var e := Encode(k, term);
    var prog := body + e + post;
    var s0 := ReaderState(0, false);
    var s1 := ReaderState(|body|, false);
    var s2 := ReaderState(|body| + |e|, true);
    assert Run(k, prog, s0, |insns|) == Trace(insns, s1) by {
      assert prog == [] + body + (e + post);
      DecodeEncodeAll(k, insns, [], e + post);
    }
    assert Run(k, prog, s1, 1) == Trace([term], s2) by {
      DecodeEncode(k, term, body, post);
      assert Run(k, prog, s2, 0) == Trace([], s2);
    }
    RunSplit(k, prog, s0, |insns|, 1);
  }

  /**
   * After the terminator the reader returns oEND on every further call and
   * the cursor never moves past the terminator.
   */
  lemma {:induction false} ProgramRoundTrip(k: OpCodes, insns: seq<OpType>, term: OpType, post: seq<bv8>, extra: nat)
    requires Body(k, insns)
    requires term.op == k.endOp && WellFormed(k, term)
    ensures var code := EncodeAll(k, insns) + Encode(k, term);
      Run(k, code + post, ReaderState(0, false), |insns| + 1 + extra)
      == Trace(insns + [term] + Ends(k, extra), ReaderState(|code|, true))
  {
    var code := EncodeAll(k, insns) + Encode(k, term);
    var s2 := ReaderState(|code|, true);
    ProgramDecodes(k, insns, term, post);
    EndIsStable(k, code + post, s2, extra);
    RunSplit(k, code + post, ReaderState(0, false), |insns| + 1, extra);
  }

  /**
   * A unit: instructions with no terminator.  The reader returns them, then
   * oEND on every further call because the section is exhausted; the latch
   * stays clear and the cursor stays at the end.
   */
  lemma {:induction false} UnitRoundTrip(k: OpCodes, insns: seq<OpType>, extra: nat)
    requires Body(k, insns)
    ensures var code := EncodeAll(k, insns);
      Run(k, code, ReaderState(0, false), |insns| + extra)
      == Trace(insns + Ends(k, extra), ReaderState(|code|, false))
  {
    var code := EncodeAll(k, insns);
    var s0 := ReaderState(0, false);
    var s1 := ReaderState(|code|, false);
    assert Run(k, code, s0, |insns|) == Trace(insns, s1) by {
      assert code == [] + code + [];
      DecodeEncodeAll(k, insns, [], []);
    }
    assert Run(k, code, s1, extra) == Trace(Ends(k, extra), s1) by {
      EndIsStable(k, code, s1, extra);
    }
    RunSplit(k, code, s0, |insns|, extra);
  }

  // ---------------------------------------------------------------------
  // The reader as the source keeps it: a cursor object and a latch
  // ---------------------------------------------------------------------

  /**
   * The program-section cursor of a POFF handle, as poffGetProgByte and
   * poffResetAccess use it.
   */
  class ProgCursor {
    const prog: seq<bv8>
    var pos: nat

    ghost predicate Valid()
      reads this
    {
      pos <= |prog|
    }

    constructor (prog: seq<bv8>)
      ensures this.prog == prog && pos == 0 && Valid()
    {
      this.prog := prog;
      pos := 0;
    }

    /** poffGetProgByte: the next byte, or EOF; advances by one until the end. */
    method GetProgByte() returns (c: ProgByte)
      requires Valid()
      modifies this
      ensures Valid()
      ensures c == ByteAt(prog, old(pos)) && pos == After(prog, old(pos))
    {
      if pos < |prog| {
        c := Byte(prog[pos]);
        pos := pos + 1;
      } else {
        c := Eof;
      }
    }

    /** poffResetAccess: back to the first byte. */
    method ResetAccess()
      modifies this
      ensures Valid() && pos == 0
    {
      pos := 0;
    }
  }

  /** The reader: the cursor it pulls from and the end latch (g_bEndIn). */
  class OpCodeReader {
    const codes: OpCodes
    const cursor: ProgCursor
    var endIn: bool

    function State(): ReaderState
      reads this, cursor
    {
      ReaderState(cursor.pos, endIn)
    }

    constructor (codes: OpCodes, cursor: ProgCursor)
      ensures this.codes == codes && this.cursor == cursor && !endIn
    {
      this.codes := codes;
      this.cursor := cursor;
      endIn := false;
    }

    /** insn_GetOpCode: decode the next instruction and return its size. */
    method GetOpCode() returns (insn: OpType, opsize: nat)
      requires cursor.Valid()
      modifies this, cursor
      ensures cursor.Valid()
      ensures Decoded(insn, opsize, State()) == Decode(codes, cursor.prog, old(State()))
    {
      opsize := 1;
      var c: ProgByte;
      if !endIn {
        c := cursor.GetProgByte();
      } else {
        c := Eof;
      }

      if endIn || c == Eof {
        insn := EndInsn(codes);
      } else {
        var op := c.value;
        endIn := op == codes.endOp;

        var arg1: bv8 := 0;
        if HasArg8(codes, op) {
          var b := cursor.GetProgByte();
          arg1 := OperandByte(b);
          opsize := opsize + 1;
        }

        var arg2: bv16 := 0;
        if HasArg16(codes, op) {
          var hi := cursor.GetProgByte();
          var lo := cursor.GetProgByte();
          arg2 := Word(OperandByte(hi), OperandByte(lo));
          opsize := opsize + 2;
        }
        insn := OpType(op, arg1, arg2);
      }
    }

    /** insn_ResetOpCodeRead: rewind the cursor and clear the latch. */
    method ResetOpCodeRead()
      modifies this, cursor
      ensures cursor.Valid()
      ensures State() == ReaderState(0, false)
    {
      cursor.ResetAccess();
      endIn := false;
    }
  }
}
