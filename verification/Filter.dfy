// The socket filter that ping4_install_filter attaches (ping.c), run under BPF semantics.
module Filter {
  import opened Words

  /** The instructions the program uses. Every jump is forward, relative to the next instruction. */
  datatype Insn =
    | LdxMsh(k: uint32)                      // X := 4 * (byte k & 0xf)
    | LdhInd(k: uint32)                      // A := network half word at X + k
    | LdbInd(k: uint32)                      // A := byte at X + k
    | JeqK(k: uint32, jt: nat, jf: nat)
    | RetK(k: uint32)

  /** How many bytes of the packet pass; a load outside the packet ends the program with 0. */
  function Exec(prog: seq<Insn>, pc: nat, a: nat, x: nat, p: seq<byte>): uint32
    decreases |prog| - pc
  {
    if pc >= |prog| then 0
    else match prog[pc]
      case LdxMsh(k) => if k < |p| then Exec(prog, pc + 1, a, 4 * (p[k] % 16), p) else 0
      case LdhInd(k) => if x + k + 1 < |p| then Exec(prog, pc + 1, Network16(p[x + k], p[x + k + 1]), x, p) else 0
      case LdbInd(k) => if x + k < |p| then Exec(prog, pc + 1, p[x + k], x, p) else 0
      case JeqK(k, jt, jf) => Exec(prog, pc + 1 + (if a == k then jt else jf), a, x, p)
      case RetK(k) => k
  }

  function Run(prog: seq<Insn>, p: seq<byte>): uint32 {
    Exec(prog, 0, 0, 0, p)
  }

  const ECHO_REPLY: uint32 := 0

  /** The program for an identifier, which it compares in network order. */
  function Program(tag: uint32): seq<Insn> {
    [LdxMsh(0),
     LdhInd(4),
     JeqK(tag, 0, 1),
     RetK(0xFFFF_FFFF),
     LdbInd(0),
     JeqK(ECHO_REPLY, 1, 0),
     RetK(0x0FFF_FFFF),
     RetK(0)]
  }

  class FilterSlot {
    const insns: array<Insn>
    var once: bool
    ghost var attached: seq<Insn>  // what the kernel got; empty while there is no filter

    ghost predicate Valid()
      reads this, insns
    {
      insns.Length == 8 && (!once ==> insns[..] == Program(0xAAAA))
    }

    constructor ()
      ensures Valid() && !once && attached == [] && fresh(insns)
    {
      insns := new Insn[] [LdxMsh(0), LdhInd(4), JeqK(0xAAAA, 0, 1), RetK(0xFFFF_FFFF),
                           LdbInd(0), JeqK(ECHO_REPLY, 1, 0), RetK(0x0FFF_FFFF), RetK(0)];
      once, attached := false, [];
    }

    /** ping4_install_filter: patches the identifier in and attaches, the first time only. */
    method Install(ident: uint16)
      requires Valid()
      modifies this, insns
      ensures Valid() && once
      ensures attached == if old(once) then old(attached) else Program(Swap16(ident))
    {
      if once {
        return;
      }
      once := true;
      insns[2] := JeqK(Swap16(ident), 0, 1);
      attached := insns[..];
    }
  }

  /** What the installed program decides: only packets too short or strangers' replies are dropped. */
  lemma Decision(ident: uint16, p: seq<byte>)
    ensures Run(Program(Swap16(ident)), p) ==
              if |p| == 0 || |p| < 4 * (p[0] % 16) + 6 then 0
              else
                var x := 4 * (p[0] % 16);
                if Native16(p[x + 4], p[x + 5]) == ident then 0xFFFF_FFFF
                else if p[x] == 0 then 0
                else 0x0FFF_FFFF
  {
    var prog := Program(Swap16(ident));
    if |p| > 0 {
      var x := 4 * (p[0] % 16);
      assert Run(prog, p) == Exec(prog, 1, 0, x, p);
      if x + 5 < |p| {
        var a := Network16(p[x + 4], p[x + 5]);
        assert Exec(prog, 1, 0, x, p) == Exec(prog, 2, a, x, p);
        SameTag(ident, p[x + 4], p[x + 5]);
        if a == Swap16(ident) {
          assert Exec(prog, 2, a, x, p) == Exec(prog, 3, a, x, p) == 0xFFFF_FFFF;
        } else {
          assert Exec(prog, 2, a, x, p) == Exec(prog, 4, a, x, p) == Exec(prog, 5, p[x], x, p);
          if p[x] == 0 {
            assert Exec(prog, 5, p[x], x, p) == Exec(prog, 7, p[x], x, p) == 0;
          } else {
            assert Exec(prog, 5, p[x], x, p) == Exec(prog, 6, p[x], x, p) == 0x0FFF_FFFF;
          }
        }
      }
    }
  }

  lemma SameTag(ident: uint16, lo: byte, hi: byte)
    ensures Network16(lo, hi) == Swap16(ident) <==> Native16(lo, hi) == ident
  {
    var a, b := ident / 0x100, ident % 0x100;
    assert Swap16(ident) == a + 0x100 * b;
    DivMod(Network16(lo, hi), 0x100, lo, hi);
    DivMod(Swap16(ident), 0x100, b, a);
  }
}
