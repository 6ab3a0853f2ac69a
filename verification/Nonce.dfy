// The node-information nonce of node_info.c in its digest form: a sequence number followed by
// the first bytes of a keyed digest, with the last digest cached between calls.
module Nonce {
  import opened Words
  import opened Md5Spec
  import opened Md5

  const NONCE_SIZE := 8

  /** What a nonce for sequence number s must be: s in network order and six digest bytes. */
  function Nonce(secret: seq<byte>, s: uint16): (n: seq<byte>)
    ensures |n| == NONCE_SIZE
  {
    var tag := [s / 0x100, s % 0x100];
    tag + Digest(secret + tag)[..NONCE_SIZE - 2]
  }

  /** The two leading bytes are s, and the others the first six of the digest keyed for them. */
  lemma NonceParts(secret: seq<byte>, s: uint16)
    ensures var n := Nonce(secret, s);
            && n[0] as int * 0x100 + n[1] as int == s
            && n[2..] == Digest(secret + n[..2])[..6]
  {
    hide Digest;
    assert Nonce(secret, s)[..2] == [s / 0x100, s % 0x100];
  }

  /** What a check answers: the sequence number of a genuine nonce, or -1. */
  function Verdict(secret: seq<byte>, nonce: seq<byte>): int
    requires |nonce| == NONCE_SIZE
  {
    var s := Network16(nonce[0], nonce[1]);
    if nonce == Nonce(secret, s) then s else -1
  }

  /** A check accepts the nonce filled for s, as s, and accepts nothing else as s. */
  lemma OnlyTheFilledNonce(secret: seq<byte>, nonce: seq<byte>, s: uint16)
    requires |nonce| == NONCE_SIZE
    ensures Verdict(secret, nonce) == s <==> nonce == Nonce(secret, s)
    ensures Verdict(secret, nonce) == -1 <==> forall t: uint16 :: nonce != Nonce(secret, t)
  {
    forall t: uint16 | nonce == Nonce(secret, t)
      ensures Network16(nonce[0], nonce[1]) == t
    {
      assert nonce[0] == t / 0x100 && nonce[1] == t % 0x100;
    }
  }

  class NonceCache {
    const secret: seq<byte>
    const digest: array<byte>
    var seqno: int

    /** Unless empty, the cache holds the digest of the secret and the cached sequence bytes. */
    ghost predicate Valid()
      reads this, digest
    {
      && digest.Length == 16 && |secret| < 0x1_0000_0000 && -1 <= seqno < 0x1_0000
      && (seqno != -1 ==> digest[..] == Digest(secret + [seqno % 0x100, seqno / 0x100]))
    }

    constructor (key: seq<byte>)
      requires |key| < 0x1_0000_0000
      ensures Valid() && secret == key && fresh(digest)
    {
      secret := key;
      digest := new byte[16](_ => 0);
      seqno := -1;
    }

    /** Recomputes the digest for two sequence bytes and remembers which they were. */
    method Refresh(lo: byte, hi: byte)
      requires Valid()
      modifies this, digest
      ensures Valid() && seqno == Native16(lo, hi)
    {
      hide Digest;
      var context := new Md5Context();
      context.Update(secret);
      context.Update([lo, hi]);
      context.Final(digest);
      assert [] + secret + [lo, hi] == secret + [lo, hi];
      seqno := Native16(lo, hi);
      DivMod(seqno, 0x100, hi, lo);
    }

    /** niquery_nonce: the two leading bytes of nonce are its sequence number, read natively. */
    method Answer(nonce: array<byte>, fill: bool) returns (r: int)
      requires Valid() && nonce.Length == NONCE_SIZE && nonce != digest
      modifies this, digest, nonce
      ensures Valid()
      ensures fill ==> r == 0 && nonce[..] == Nonce(secret, Network16(old(nonce[0]), old(nonce[1])))
      ensures !fill ==> r == Verdict(secret, nonce[..]) && nonce[..] == old(nonce[..])
    {
      hide Digest;
      var lo, hi := nonce[0], nonce[1];
      if fill || seqno != Native16(lo, hi) || seqno == -1 {
        Refresh(lo, hi);
      }
      DivMod(seqno, 0x100, hi, lo);
      ghost var s := Network16(lo, hi);
      DivMod(s, 0x100, lo, hi);
      assert Nonce(secret, s) == [lo, hi] + digest[..6];
      if fill {
        CopyInto(nonce, 2, digest[..6]);
        assert nonce[..] == nonce[..2] + nonce[2..8];
        return 0;
      }
      assert nonce[..] == [lo, hi] + nonce[2..];
      if nonce[2..] != digest[..6] {
        assert ([lo, hi] + digest[..6])[2..] == digest[..6] && nonce[..][2..] == nonce[2..];
        return -1;
      }
      return Network16(lo, hi);
    }

    method Fill(s: uint16, nonce: array<byte>)
      requires Valid() && nonce.Length == NONCE_SIZE && nonce != digest
      modifies this, digest, nonce
      ensures Valid() && nonce[..] == Nonce(secret, s)
    {
      hide Digest;
      nonce[0], nonce[1] := s / 0x100, s % 0x100;
      assert Network16(nonce[0], nonce[1]) == s;
      var _ := Answer(nonce, true);
    }

    method Check(nonce: array<byte>) returns (r: int)
      requires Valid() && nonce.Length == NONCE_SIZE && nonce != digest
      modifies this, digest, nonce
      ensures Valid() && nonce[..] == old(nonce[..]) && r == Verdict(secret, nonce[..])
    {
      r := Answer(nonce, false);
    }
  }
}
