// The unrolled, in-place MD5 block function of md5.c.
module Md5Transform {
  import opened Words
  import opened Md5Spec

  // The rewritten auxiliary functions: F1 saves one operation, F2 is F1 with its arguments turned.
  function F1(x: word, y: word, z: word): word {
    var u, v, w := x as bv32, y as bv32, z as bv32;
    (w ^ (u & (v ^ w))) as int
  }

  function F2(x: word, y: word, z: word): word { F1(z, x, y) }

  function F3(x: word, y: word, z: word): word {
    ((x as bv32) ^ (y as bv32) ^ (z as bv32)) as int
  }

  function F4(x: word, y: word, z: word): word {
    ((y as bv32) ^ ((x as bv32) | !(z as bv32))) as int
  }

  // MD5STEP for each of them: w += f(x, y, z) + (m + t), rotate left by s, w += x.
  function Finish(w: word, x: word, s: nat): word
    requires s <= 32
  {
    Plus(RotL(w, s), x)
  }

  function F1Step(w: word, x: word, y: word, z: word, m: word, t: word, s: nat): word
    requires s <= 32
  {
    Finish(Plus(w, Plus(F1(x, y, z), Plus(m, t))), x, s)
  }

  function F2Step(w: word, x: word, y: word, z: word, m: word, t: word, s: nat): word
    requires s <= 32
  {
    Finish(Plus(w, Plus(F2(x, y, z), Plus(m, t))), x, s)
  }

  function F3Step(w: word, x: word, y: word, z: word, m: word, t: word, s: nat): word
    requires s <= 32
  {
    Finish(Plus(w, Plus(F3(x, y, z), Plus(m, t))), x, s)
  }

  function F4Step(w: word, x: word, y: word, z: word, m: word, t: word, s: nat): word
    requires s <= 32
  {
    Finish(Plus(w, Plus(F4(x, y, z), Plus(m, t))), x, s)
  }

  function MdStep(i: nat, w: word, x: word, y: word, z: word, m: word, t: word, s: nat): word
    requires s <= 32
  {
    if i < 16 then F1Step(w, x, y, z, m, t, s) else if i < 32 then F2Step(w, x, y, z, m, t, s)
    else if i < 48 then F3Step(w, x, y, z, m, t, s) else F4Step(w, x, y, z, m, t, s)
  }

  /** The bit-select identity behind the rewritten F1 and F2. */
  lemma SelectBits(x: bv32, y: bv32, z: bv32)
    ensures z ^ (x & (y ^ z)) == (x & y) | (!x & z)
  {
  }

  lemma TurnedBits(x: bv32, y: bv32, z: bv32)
    ensures (z & x) | (!z & y) == (x & z) | (y & !z)
  {
  }

  lemma Select(x: word, y: word, z: word)
    ensures F1(x, y, z) == F(x, y, z)
  {
    SelectBits(x as bv32, y as bv32, z as bv32);
  }

  lemma SelectTurned(x: word, y: word, z: word)
    ensures F2(x, y, z) == G(x, y, z)
  {
    SelectBits(z as bv32, x as bv32, y as bv32);
    TurnedBits(x as bv32, y as bv32, z as bv32);
  }

  lemma SameXor(x: word, y: word, z: word)
    ensures F3(x, y, z) == H(x, y, z) && F4(x, y, z) == I(x, y, z)
  {
  }

  lemma PlusWraps(x: word, y: word)
    ensures Plus(x, y) == if x + y < 0x1_0000_0000 then x + y else x + y - 0x1_0000_0000
  {
  }

  lemma PlusAssociates(x: word, y: word, z: word)
    ensures Plus(x, Plus(y, z)) == Plus(Plus(x, y), z)
  {
    PlusWraps(y, z);
    PlusWraps(x, Plus(y, z));
    PlusWraps(x, y);
    PlusWraps(Plus(x, y), z);
    hide Plus;
  }

  lemma PlusCommutes(x: word, y: word)
    ensures Plus(x, y) == Plus(y, x)
  {
  }

  lemma Reassociated(a: word, f: word, m: word, t: word)
    ensures Plus(a, Plus(f, Plus(m, t))) == Plus(Plus(Plus(a, f), m), t)
  {
    hide Plus;
    PlusAssociates(f, m, t);
    PlusAssociates(a, Plus(f, m), t);
    PlusAssociates(a, f, m);
  }

  lemma CodeForm(i: nat, w: word, x: word, y: word, z: word, m: word, t: word, s: nat)
    requires s <= 32
    ensures MdStep(i, w, x, y, z, m, t, s) == Finish(Plus(w, Plus(Aux(i, x, y, z), Plus(m, t))), x, s)
  {
    hide F1, F2, F3, F4, F, G, H, I, Finish, Plus;
    Select(x, y, z);
    SelectTurned(x, y, z);
    SameXor(x, y, z);
  }

  /** One MD5STEP is one RFC operation on the register it overwrites. */
  lemma StepMatches(i: nat, s: State, x: seq<word>)
    ensures Step(i, s, x)
         == State(s.d, MdStep(i, s.a, s.b, s.c, s.d, In(x, Index(i)), T(i), Shift(i)), s.b, s.c)
  {
    hide MdStep, In, RotL, Aux, T, Index, Shift, Plus;
    var f := Aux(i, s.b, s.c, s.d);
    CodeForm(i, s.a, s.b, s.c, s.d, In(x, Index(i)), T(i), Shift(i));
    Reassociated(s.a, f, In(x, Index(i)), T(i));
    PlusCommutes(s.b, RotL(Plus(Plus(Plus(s.a, f), In(x, Index(i))), T(i)), Shift(i)));
  }

  /** Four consecutive MD5STEPs bring every register back to its role. */
  lemma Quad(i: nat, s0: State, s: State, x: seq<word>)
    requires i + 4 <= 64 && s == Steps(i, s0, x)
    ensures var a := MdStep(i, s.a, s.b, s.c, s.d, In(x, Index(i)), T(i), Shift(i));
            var d := MdStep(i + 1, s.d, a, s.b, s.c, In(x, Index(i + 1)), T(i + 1), Shift(i + 1));
            var c := MdStep(i + 2, s.c, d, a, s.b, In(x, Index(i + 2)), T(i + 2), Shift(i + 2));
            var b := MdStep(i + 3, s.b, c, d, a, In(x, Index(i + 3)), T(i + 3), Shift(i + 3));
            Steps(i + 4, s0, x) == State(a, b, c, d)
  {
    hide MdStep, T, Index, Shift, Step, In;
    StepMatches(i, s, x);
    StepMatches(i + 1, Steps(i + 1, s0, x), x);
    StepMatches(i + 2, Steps(i + 2, s0, x), x);
    StepMatches(i + 3, Steps(i + 3, s0, x), x);
  }

  lemma Quad1(i: nat, s0: State, s: State, x: seq<word>)
    requires 0 <= i <= 12 && s == Steps(i, s0, x)
    ensures var a := F1Step(s.a, s.b, s.c, s.d, In(x, Index(i)), T(i), Shift(i));
            var d := F1Step(s.d, a, s.b, s.c, In(x, Index(i + 1)), T(i + 1), Shift(i + 1));
            var c := F1Step(s.c, d, a, s.b, In(x, Index(i + 2)), T(i + 2), Shift(i + 2));
            var b := F1Step(s.b, c, d, a, In(x, Index(i + 3)), T(i + 3), Shift(i + 3));
            Steps(i + 4, s0, x) == State(a, b, c, d)
  {
    hide F1Step, F2Step, F3Step, F4Step, Index, T, Shift, Steps, In;
    Quad(i, s0, s, x);
  }

  lemma Quad2(i: nat, s0: State, s: State, x: seq<word>)
    requires 16 <= i <= 28 && s == Steps(i, s0, x)
    ensures var a := F2Step(s.a, s.b, s.c, s.d, In(x, Index(i)), T(i), Shift(i));
            var d := F2Step(s.d, a, s.b, s.c, In(x, Index(i + 1)), T(i + 1), Shift(i + 1));
            var c := F2Step(s.c, d, a, s.b, In(x, Index(i + 2)), T(i + 2), Shift(i + 2));
            var b := F2Step(s.b, c, d, a, In(x, Index(i + 3)), T(i + 3), Shift(i + 3));
            Steps(i + 4, s0, x) == State(a, b, c, d)
  {
    hide F1Step, F2Step, F3Step, F4Step, Index, T, Shift, Steps, In;
    Quad(i, s0, s, x);
  }

  lemma Quad3(i: nat, s0: State, s: State, x: seq<word>)
    requires 32 <= i <= 44 && s == Steps(i, s0, x)
    ensures var a := F3Step(s.a, s.b, s.c, s.d, In(x, Index(i)), T(i), Shift(i));
            var d := F3Step(s.d, a, s.b, s.c, In(x, Index(i + 1)), T(i + 1), Shift(i + 1));
            var c := F3Step(s.c, d, a, s.b, In(x, Index(i + 2)), T(i + 2), Shift(i + 2));
            var b := F3Step(s.b, c, d, a, In(x, Index(i + 3)), T(i + 3), Shift(i + 3));
            Steps(i + 4, s0, x) == State(a, b, c, d)
  {
    hide F1Step, F2Step, F3Step, F4Step, Index, T, Shift, Steps, In;
    Quad(i, s0, s, x);
  }

  lemma Quad4(i: nat, s0: State, s: State, x: seq<word>)
    requires 48 <= i <= 60 && s == Steps(i, s0, x)
    ensures var a := F4Step(s.a, s.b, s.c, s.d, In(x, Index(i)), T(i), Shift(i));
            var d := F4Step(s.d, a, s.b, s.c, In(x, Index(i + 1)), T(i + 1), Shift(i + 1));
            var c := F4Step(s.c, d, a, s.b, In(x, Index(i + 2)), T(i + 2), Shift(i + 2));
            var b := F4Step(s.b, c, d, a, In(x, Index(i + 3)), T(i + 3), Shift(i + 3));
            Steps(i + 4, s0, x) == State(a, b, c, d)
  {
    hide F1Step, F2Step, F3Step, F4Step, Index, T, Shift, Steps, In;
    Quad(i, s0, s, x);
  }

  method Round1(x: seq<word>, ghost s0: State, a0: word, b0: word, c0: word, d0: word)
    returns (a: word, b: word, c: word, d: word)
    requires State(a0, b0, c0, d0) == Steps(0, s0, x)
    ensures State(a, b, c, d) == Steps(16, s0, x)
  {
    hide F1Step, Steps, In;
    a, b, c, d := a0, b0, c0, d0;
    Quad1(0, s0, State(a, b, c, d), x);
    a := F1Step(a, b, c, d, In(x, 0), 0xd76aa478, 7);
    d := F1Step(d, a, b, c, In(x, 1), 0xe8c7b756, 12);
    c := F1Step(c, d, a, b, In(x, 2), 0x242070db, 17);
    b := F1Step(b, c, d, a, In(x, 3), 0xc1bdceee, 22);
    Quad1(4, s0, State(a, b, c, d), x);
    a := F1Step(a, b, c, d, In(x, 4), 0xf57c0faf, 7);
    d := F1Step(d, a, b, c, In(x, 5), 0x4787c62a, 12);
    c := F1Step(c, d, a, b, In(x, 6), 0xa8304613, 17);
    b := F1Step(b, c, d, a, In(x, 7), 0xfd469501, 22);
    Quad1(8, s0, State(a, b, c, d), x);
    a := F1Step(a, b, c, d, In(x, 8), 0x698098d8, 7);
    d := F1Step(d, a, b, c, In(x, 9), 0x8b44f7af, 12);
    c := F1Step(c, d, a, b, In(x, 10), 0xffff5bb1, 17);
    b := F1Step(b, c, d, a, In(x, 11), 0x895cd7be, 22);
    Quad1(12, s0, State(a, b, c, d), x);
    a := F1Step(a, b, c, d, In(x, 12), 0x6b901122, 7);
    d := F1Step(d, a, b, c, In(x, 13), 0xfd987193, 12);
    c := F1Step(c, d, a, b, In(x, 14), 0xa679438e, 17);
    b := F1Step(b, c, d, a, In(x, 15), 0x49b40821, 22);
  }

  method Round2(x: seq<word>, ghost s0: State, a0: word, b0: word, c0: word, d0: word)
    returns (a: word, b: word, c: word, d: word)
    requires State(a0, b0, c0, d0) == Steps(16, s0, x)
    ensures State(a, b, c, d) == Steps(32, s0, x)
  {
    hide F2Step, Steps, In;
    a, b, c, d := a0, b0, c0, d0;
    Quad2(16, s0, State(a, b, c, d), x);
    a := F2Step(a, b, c, d, In(x, 1), 0xf61e2562, 5);
    d := F2Step(d, a, b, c, In(x, 6), 0xc040b340, 9);
    c := F2Step(c, d, a, b, In(x, 11), 0x265e5a51, 14);
    b := F2Step(b, c, d, a, In(x, 0), 0xe9b6c7aa, 20);
    Quad2(20, s0, State(a, b, c, d), x);
    a := F2Step(a, b, c, d, In(x, 5), 0xd62f105d, 5);
    d := F2Step(d, a, b, c, In(x, 10), 0x02441453, 9);
    c := F2Step(c, d, a, b, In(x, 15), 0xd8a1e681, 14);
    b := F2Step(b, c, d, a, In(x, 4), 0xe7d3fbc8, 20);
    Quad2(24, s0, State(a, b, c, d), x);
    a := F2Step(a, b, c, d, In(x, 9), 0x21e1cde6, 5);
    d := F2Step(d, a, b, c, In(x, 14), 0xc33707d6, 9);
    c := F2Step(c, d, a, b, In(x, 3), 0xf4d50d87, 14);
    b := F2Step(b, c, d, a, In(x, 8), 0x455a14ed, 20);
    Quad2(28, s0, State(a, b, c, d), x);
    a := F2Step(a, b, c, d, In(x, 13), 0xa9e3e905, 5);
    d := F2Step(d, a, b, c, In(x, 2), 0xfcefa3f8, 9);
    c := F2Step(c, d, a, b, In(x, 7), 0x676f02d9, 14);
    b := F2Step(b, c, d, a, In(x, 12), 0x8d2a4c8a, 20);
  }

  method Round3(x: seq<word>, ghost s0: State, a0: word, b0: word, c0: word, d0: word)
    returns (a: word, b: word, c: word, d: word)
    requires State(a0, b0, c0, d0) == Steps(32, s0, x)
    ensures State(a, b, c, d) == Steps(48, s0, x)
  {
    hide F3Step, Steps, In;
    a, b, c, d := a0, b0, c0, d0;
    Quad3(32, s0, State(a, b, c, d), x);
    a := F3Step(a, b, c, d, In(x, 5), 0xfffa3942, 4);
    d := F3Step(d, a, b, c, In(x, 8), 0x8771f681, 11);
    c := F3Step(c, d, a, b, In(x, 11), 0x6d9d6122, 16);
    b := F3Step(b, c, d, a, In(x, 14), 0xfde5380c, 23);
    Quad3(36, s0, State(a, b, c, d), x);
    a := F3Step(a, b, c, d, In(x, 1), 0xa4beea44, 4);
    d := F3Step(d, a, b, c, In(x, 4), 0x4bdecfa9, 11);
    c := F3Step(c, d, a, b, In(x, 7), 0xf6bb4b60, 16);
    b := F3Step(b, c, d, a, In(x, 10), 0xbebfbc70, 23);
    Quad3(40, s0, State(a, b, c, d), x);
    a := F3Step(a, b, c, d, In(x, 13), 0x289b7ec6, 4);
    d := F3Step(d, a, b, c, In(x, 0), 0xeaa127fa, 11);
    c := F3Step(c, d, a, b, In(x, 3), 0xd4ef3085, 16);
    b := F3Step(b, c, d, a, In(x, 6), 0x04881d05, 23);
    Quad3(44, s0, State(a, b, c, d), x);
    a := F3Step(a, b, c, d, In(x, 9), 0xd9d4d039, 4);
    d := F3Step(d, a, b, c, In(x, 12), 0xe6db99e5, 11);
    c := F3Step(c, d, a, b, In(x, 15), 0x1fa27cf8, 16);
    b := F3Step(b, c, d, a, In(x, 2), 0xc4ac5665, 23);
  }

  method Round4(x: seq<word>, ghost s0: State, a0: word, b0: word, c0: word, d0: word)
    returns (a: word, b: word, c: word, d: word)
    requires State(a0, b0, c0, d0) == Steps(48, s0, x)
    ensures State(a, b, c, d) == Steps(64, s0, x)
  {
    hide F4Step, Steps, In;
    a, b, c, d := a0, b0, c0, d0;
    Quad4(48, s0, State(a, b, c, d), x);
    a := F4Step(a, b, c, d, In(x, 0), 0xf4292244, 6);
    d := F4Step(d, a, b, c, In(x, 7), 0x432aff97, 10);
    c := F4Step(c, d, a, b, In(x, 14), 0xab9423a7, 15);
    b := F4Step(b, c, d, a, In(x, 5), 0xfc93a039, 21);
    Quad4(52, s0, State(a, b, c, d), x);
    a := F4Step(a, b, c, d, In(x, 12), 0x655b59c3, 6);
    d := F4Step(d, a, b, c, In(x, 3), 0x8f0ccc92, 10);
    c := F4Step(c, d, a, b, In(x, 10), 0xffeff47d, 15);
    b := F4Step(b, c, d, a, In(x, 1), 0x85845dd1, 21);
    Quad4(56, s0, State(a, b, c, d), x);
    a := F4Step(a, b, c, d, In(x, 8), 0x6fa87e4f, 6);
    d := F4Step(d, a, b, c, In(x, 15), 0xfe2ce6e0, 10);
    c := F4Step(c, d, a, b, In(x, 6), 0xa3014314, 15);
    b := F4Step(b, c, d, a, In(x, 13), 0x4e0811a1, 21);
    Quad4(60, s0, State(a, b, c, d), x);
    a := F4Step(a, b, c, d, In(x, 4), 0xf7537e82, 6);
    d := F4Step(d, a, b, c, In(x, 11), 0xbd3af235, 10);
    c := F4Step(c, d, a, b, In(x, 2), 0x2ad7d2bb, 15);
    b := F4Step(b, c, d, a, In(x, 9), 0xeb86d391, 21);
  }

  /** iputils_MD5Transform alters the four registers in place exactly as the RFC's block function. */
  method Transform(buf: array<word>, x: seq<word>)
    requires buf.Length == 4 && |x| == 16
    modifies buf
    ensures State(buf[0], buf[1], buf[2], buf[3]) == Compress(old(State(buf[0], buf[1], buf[2], buf[3])), x)
  {
    hide Steps;
    var a, b, c, d := buf[0], buf[1], buf[2], buf[3];
    ghost var s0 := State(a, b, c, d);
    assert Steps(0, s0, x) == s0 by { NoSteps(s0, x); }
    a, b, c, d := Round1(x, s0, a, b, c, d);
    a, b, c, d := Round2(x, s0, a, b, c, d);
    a, b, c, d := Round3(x, s0, a, b, c, d);
    a, b, c, d := Round4(x, s0, a, b, c, d);
    buf[0] := Plus(buf[0], a);
    buf[1] := Plus(buf[1], b);
    buf[2] := Plus(buf[2], c);
    buf[3] := Plus(buf[3], d);
  }

  lemma NoSteps(s: State, x: seq<word>)
    ensures Steps(0, s, x) == s
  {
  }
}
