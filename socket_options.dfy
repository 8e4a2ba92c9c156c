/**
 * Socket-option bits of the NuttX network layer (nuttx/net/net-internal.h).
 *
 * Every socket keeps one option word in which socket option number `o`
 * owns bit `o`.  The macros set, clear and test those bits and decide
 * which option numbers may be read (`getsockopt`) or written
 * (`setsockopt`).
 */
module SocketOptions {

  /** The largest option number (_SO_MAXOPT). */
  const MaxOpt: int := 15

  /** An option number that owns a bit of the option word. */
  type Opt = o: int | 0 <= o <= MaxOpt

  /**
   * The socket's option word.  Option numbers run up to MaxOpt, so sixteen
   * bits hold every option; the width of the field that stores the word
   * is declared in a NuttX header outside this model.
   */
  type OptionSet = bv16

  /** The C `int` that callers pass as an option number. */
  newtype Int32 = x: int | -0x8000_0000 <= x < 0x8000_0000

  /**
   * The numbers of the three options that can only be read: SO_ACCEPTCONN,
   * SO_ERROR and SO_TYPE.  sys/socket.h, which defines them, is outside
   * this model, so they are a parameter and every property below holds
   * whatever they are.
   */
  datatype GetOnlyOpts = GetOnlyOpts(acceptConn: Opt, error: Opt, sockType: Opt)

  /** _SO_BIT: the bit that option `o` owns. */
  function Bit(o: Opt): (b: OptionSet)
    ensures b != 0
  {
    (1 as OptionSet) << (o as bv4)
  }

  /** _SO_GETOPT: whether option `o` is set in `s`. */
  predicate GetOpt(s: OptionSet, o: Opt) {
    s & Bit(o) != 0
  }

  /** _SO_SETOPT: the option word after setting option `o`. */
  function SetOpt(s: OptionSet, o: Opt): (r: OptionSet)
    ensures GetOpt(r, o)
    ensures forall p: Opt :: p != o ==> GetOpt(r, p) == GetOpt(s, p)
  {
    forall p: Opt | p != o ensures GetOpt(s | Bit(o), p) == GetOpt(s, p) {
      SetOtherBit(s, o, p);
    }
    s | Bit(o)
  }

  /** _SO_CLROPT: the option word after clearing option `o`. */
  function ClrOpt(s: OptionSet, o: Opt): (r: OptionSet)
    ensures !GetOpt(r, o)
    ensures forall p: Opt :: p != o ==> GetOpt(r, p) == GetOpt(s, p)
  {
    forall p: Opt | p != o ensures GetOpt(s & !Bit(o), p) == GetOpt(s, p) {
      ClrOtherBit(s, o, p);
    }
    s & !Bit(o)
  }

  lemma SetOtherBit(s: OptionSet, o: Opt, p: Opt)
    requires p != o
    ensures GetOpt(s | Bit(o), p) == GetOpt(s, p)
  {
    BitsDisjoint(o, p);
    assert (s | Bit(o)) & Bit(p) == (s & Bit(p)) | (Bit(o) & Bit(p));
  }

  lemma ClrOtherBit(s: OptionSet, o: Opt, p: Opt)
    requires p != o
    ensures GetOpt(s & !Bit(o), p) == GetOpt(s, p)
  {
    BitsDisjoint(o, p);
    assert (s & !Bit(o)) & Bit(p) == (s & Bit(p)) & !Bit(o);
  }

  /** The bits of two different options do not overlap. */
  lemma BitsDisjoint(o: Opt, p: Opt)
    requires p != o
    ensures Bit(o) & Bit(p) == 0
  {
  }

  /** The options set in `s`, as a set of option numbers. */
  function Options(s: OptionSet): set<Opt> {
    set p: Opt | GetOpt(s, p)
  }

  /**
   * An option word is determined by the options it holds: two words that
   * agree on every option bit are the same word.
   */
  lemma {:induction false} OptionsDetermineWord(s: OptionSet, t: OptionSet)
    requires Options(s) == Options(t)
    ensures s == t
  {
    forall p: Opt ensures GetOpt(s, p) == GetOpt(t, p) {
      assert GetOpt(s, p) <==> p in Options(s);
      assert GetOpt(t, p) <==> p in Options(t);
    }
    BitsDetermineWord(s, t);
  }

  lemma BitsDetermineWord(s: OptionSet, t: OptionSet)
    requires forall p: Opt :: GetOpt(s, p) == GetOpt(t, p)
    ensures s == t
  {
    var d := s ^ t;
    forall p: Opt ensures d & Bit(p) == 0 {
      assert GetOpt(s, p) == GetOpt(t, p);
    }
    assert d & Bit(0) == 0 && d & Bit(1) == 0 && d & Bit(2) == 0 && d & Bit(3) == 0;
    assert d & Bit(4) == 0 && d & Bit(5) == 0 && d & Bit(6) == 0 && d & Bit(7) == 0;
    assert d & Bit(8) == 0 && d & Bit(9) == 0 && d & Bit(10) == 0 && d & Bit(11) == 0;
    assert d & Bit(12) == 0 && d & Bit(13) == 0 && d & Bit(14) == 0 && d & Bit(15) == 0;
  }

  /** Setting option `o` adds `o` to the options and nothing else. */
  lemma SetOptAdds(s: OptionSet, o: Opt)
    ensures Options(SetOpt(s, o)) == Options(s) + {o}
  {
  }

  /** Clearing option `o` removes `o` from the options and nothing else. */
  lemma ClrOptRemoves(s: OptionSet, o: Opt)
    ensures Options(ClrOpt(s, o)) == Options(s) - {o}
  {
  }

  /**
   * An option reads as set exactly when setting it leaves the word as it
   * was, and as clear exactly when clearing it does.
   */
  lemma {:induction false} GetOptMeansUnchanged(s: OptionSet, o: Opt)
    ensures GetOpt(s, o) <==> SetOpt(s, o) == s
    ensures !GetOpt(s, o) <==> ClrOpt(s, o) == s
  {
    if GetOpt(s, o) {
      SetOptAdds(s, o);
      OptionsDetermineWord(SetOpt(s, o), s);
    } else {
      ClrOptRemoves(s, o);
      OptionsDetermineWord(ClrOpt(s, o), s);
    }
  }

  /** Setting an option twice is the same as setting it once. */
  lemma {:induction false} SetOptIdempotent(s: OptionSet, o: Opt)
    ensures SetOpt(SetOpt(s, o), o) == SetOpt(s, o)
  {
    SetOptAdds(s, o);
    SetOptAdds(SetOpt(s, o), o);
    OptionsDetermineWord(SetOpt(SetOpt(s, o), o), SetOpt(s, o));
  }

  /** Clearing an option twice is the same as clearing it once. */
  lemma {:induction false} ClrOptIdempotent(s: OptionSet, o: Opt)
    ensures ClrOpt(ClrOpt(s, o), o) == ClrOpt(s, o)
  {
    ClrOptRemoves(s, o);
    ClrOptRemoves(ClrOpt(s, o), o);
    OptionsDetermineWord(ClrOpt(ClrOpt(s, o), o), ClrOpt(s, o));
  }

  /** The conversion `(unsigned int)o` of a 32-bit two's complement int. */
  function AsUnsigned(o: Int32): (u: nat)
    ensures u < 0x1_0000_0000
    ensures o >= 0 ==> u == o as int
    ensures o < 0 ==> u >= 0x8000_0000
  {
    if o < 0 then o as int + 0x1_0000_0000 else o as int
  }

  /** _SO_GETONLYSET: the bits of the options that can only be read. */
  function GetOnlySet(g: GetOnlyOpts): OptionSet {
    Bit(g.acceptConn) | Bit(g.error) | Bit(g.sockType)
  }

  /**
   * _SO_GETONLY: option `o` can be read but not written; these are exactly
   * SO_ACCEPTCONN, SO_ERROR and SO_TYPE.
   */
  function GetOnly(g: GetOnlyOpts, o: Opt): (getOnly: bool)
    ensures getOnly <==> o == g.acceptConn || o == g.error || o == g.sockType
  {
    GetOnlyBits(g, o);
    Bit(o) & GetOnlySet(g) != 0
  }

  lemma GetOnlyBits(g: GetOnlyOpts, o: Opt)
    ensures Bit(o) & GetOnlySet(g) != 0 <==> o == g.acceptConn || o == g.error || o == g.sockType
  {
    if o == g.acceptConn || o == g.error || o == g.sockType {
      InGetOnlySet(g, o);
    } else {
      NotInGetOnlySet(g, o);
    }
  }

  lemma InGetOnlySet(g: GetOnlyOpts, o: Opt)
    requires o == g.acceptConn || o == g.error || o == g.sockType
    ensures Bit(o) & GetOnlySet(g) != 0
  {
    OverlapsUnion(Bit(o), Bit(g.acceptConn), Bit(g.error), Bit(g.sockType));
  }

  lemma NotInGetOnlySet(g: GetOnlyOpts, o: Opt)
    requires o != g.acceptConn && o != g.error && o != g.sockType
    ensures Bit(o) & GetOnlySet(g) == 0
  {
    BitsDisjoint(g.acceptConn, o);
    BitsDisjoint(g.error, o);
    BitsDisjoint(g.sockType, o);
    DisjointFromUnion(Bit(o), Bit(g.acceptConn), Bit(g.error), Bit(g.sockType));
  }

  lemma OverlapsUnion(w: OptionSet, x: OptionSet, y: OptionSet, z: OptionSet)
    requires w != 0 && (w == x || w == y || w == z)
    ensures w & (x | y | z) != 0
  {
  }

  lemma DisjointFromUnion(w: OptionSet, x: OptionSet, y: OptionSet, z: OptionSet)
    requires w & x == 0 && w & y == 0 && w & z == 0
    ensures w & (x | y | z) == 0
  {
  }

  /** _SO_GETVALID: option number `o` may be read. */
  function GetValid(o: Int32): (ok: bool)
    ensures ok <==> 0 <= o <= MaxOpt as Int32
  {
    AsUnsigned(o) <= MaxOpt
  }

  /** _SO_SETVALID: option number `o` may be written. */
  function SetValid(g: GetOnlyOpts, o: Int32): (ok: bool)
    ensures ok <==> GetValid(o) && o as int != g.acceptConn && o as int != g.error && o as int != g.sockType
    ensures ok ==> GetValid(o)
  {
    AsUnsigned(o) <= MaxOpt && !GetOnly(g, o as int)
  }
}
