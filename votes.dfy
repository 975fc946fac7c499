/** Votes and their natural key: the 8-byte big-endian proposal id followed by
    the voter's raw address bytes. */
module Votes {
  import opened Base

  /** How a member voted; Unspecified is the zero value and is not a vote. */
  datatype Choice = Unspecified | Yes | No | Abstain | Veto {
    predicate IsVote() { this != Unspecified }
  }

  datatype Vote = Vote(proposalId: uint64, voter: seq<byte>, choice: Choice)

  /** Width in bytes of the encoded proposal id. */
  const ID_WIDTH: nat := 8

  function Pow256(k: nat): (p: nat)
    ensures p > 0
  {
    if k == 0 then 1 else 256 * Pow256(k - 1)
  }

  /** The `width` low-order bytes of `n`, most significant first. */
  function BigEndian(n: nat, width: nat): (r: seq<byte>)
    ensures |r| == width
  {
    if width == 0 then [] else BigEndian(n / 256, width - 1) + [n % 256]
  }

  /** The number a big-endian byte string denotes. */
  function FromBigEndian(s: seq<byte>): (n: nat)
    ensures n < Pow256(|s|)
  {
    if s == [] then 0 else FromBigEndian(s[..|s| - 1]) * 256 + s[|s| - 1]
  }

  lemma {:induction false} FromBigEndianOfBigEndian(n: nat, width: nat)
    requires n < Pow256(width)
    ensures FromBigEndian(BigEndian(n, width)) == n
  {
    if width > 0 {
      var s := BigEndian(n, width);
      assert s[..|s| - 1] == BigEndian(n / 256, width - 1);
      FromBigEndianOfBigEndian(n / 256, width - 1);
    }
  }

  lemma {:induction false} BigEndianOfFromBigEndian(s: seq<byte>)
    ensures BigEndian(FromBigEndian(s), |s|) == s
  {
    if s != [] {
      var p := s[..|s| - 1];
      BigEndianOfFromBigEndian(p);
      var n := FromBigEndian(s);
      assert n / 256 == FromBigEndian(p);
      assert n % 256 == s[|s| - 1];
      assert s == p + [s[|s| - 1]];
    }
  }

  lemma Pow256Of8()
    ensures Pow256(ID_WIDTH) == 0x1_0000_0000_0000_0000
  {
  }

  /** The storage key of a vote: proposal id (8 bytes, big-endian), then voter. */
  function NaturalKey(v: Vote): (key: seq<byte>)
    ensures |key| == ID_WIDTH + |v.voter|
    ensures FromBigEndian(key[..ID_WIDTH]) == v.proposalId
    ensures key[ID_WIDTH..] == v.voter
  {
    Pow256Of8();
    FromBigEndianOfBigEndian(v.proposalId, ID_WIDTH);
    var key := BigEndian(v.proposalId, ID_WIDTH) + v.voter;
    assert key[..ID_WIDTH] == BigEndian(v.proposalId, ID_WIDTH);
    key
  }

  /** Splits a natural key back into the proposal id and the voter bytes;
      None when the key is shorter than the id. */
  function ParseNaturalKey(key: seq<byte>): (r: Option<(uint64, seq<byte>)>)
    ensures r.Some? <==> |key| >= ID_WIDTH
    ensures r.Some? ==> BigEndian(r.value.0, ID_WIDTH) + r.value.1 == key
  {
    if |key| < ID_WIDTH then None
    else
      Pow256Of8();
      BigEndianOfFromBigEndian(key[..ID_WIDTH]);
      assert key == key[..ID_WIDTH] + key[ID_WIDTH..];
      Some((FromBigEndian(key[..ID_WIDTH]), key[ID_WIDTH..]))
  }

  lemma NaturalKeyRoundTrip(v: Vote)
    ensures ParseNaturalKey(NaturalKey(v)) == Some((v.proposalId, v.voter))
  {
  }

  /** Two votes share a key exactly when they are cast by the same voter on
      the same proposal. */
  lemma NaturalKeyInjective(v: Vote, w: Vote)
    ensures NaturalKey(v) == NaturalKey(w) <==> v.proposalId == w.proposalId && v.voter == w.voter
  {
  }

  /** Lexicographic byte order, as a key-value store sorts its keys. */
  predicate LexLess(s: seq<byte>, t: seq<byte>) {
    |t| > 0 && (|s| == 0 || s[0] < t[0] || (s[0] == t[0] && LexLess(s[1..], t[1..])))
  }

  lemma {:induction false} LexLessExtend(s: seq<byte>, t: seq<byte>, u: seq<byte>, w: seq<byte>)
    requires |s| == |t| && LexLess(s, t)
    ensures LexLess(s + u, t + w)
  {
    assert (s + u)[0] == s[0] && (t + w)[0] == t[0];
    if s[0] == t[0] && !(s[0] < t[0]) {
      assert (s + u)[1..] == s[1..] + u;
      assert (t + w)[1..] == t[1..] + w;
      LexLessExtend(s[1..], t[1..], u, w);
    }
  }

  lemma {:induction false} LexLessCommonPrefix(p: seq<byte>, s: seq<byte>, t: seq<byte>)
    requires LexLess(s, t)
    ensures LexLess(p + s, p + t)
  {
    if p != [] {
      assert (p + s)[0] == p[0] == (p + t)[0];
      assert (p + s)[1..] == p[1..] + s;
      assert (p + t)[1..] == p[1..] + t;
      LexLessCommonPrefix(p[1..], s, t);
    } else {
      assert p + s == s && p + t == t;
    }
  }

  /** Big-endian encoding preserves the numeric order. */
  lemma {:induction false} BigEndianMonotone(a: nat, b: nat, width: nat)
    requires a < b < Pow256(width)
    ensures LexLess(BigEndian(a, width), BigEndian(b, width))
  {
    var qa, qb := a / 256, b / 256;
    if qa < qb {
      BigEndianMonotone(qa, qb, width - 1);
      LexLessExtend(BigEndian(qa, width - 1), BigEndian(qb, width - 1), [a % 256], [b % 256]);
    } else {
      assert LexLess([a % 256], [b % 256]);
      LexLessCommonPrefix(BigEndian(qa, width - 1), [a % 256], [b % 256]);
    }
  }

  /** Keys order votes first by proposal id ... */
  lemma NaturalKeyOrdersByProposal(v: Vote, w: Vote)
    requires v.proposalId < w.proposalId
    ensures LexLess(NaturalKey(v), NaturalKey(w))
  {
    Pow256Of8();
    BigEndianMonotone(v.proposalId, w.proposalId, ID_WIDTH);
    LexLessExtend(BigEndian(v.proposalId, ID_WIDTH), BigEndian(w.proposalId, ID_WIDTH), v.voter, w.voter);
  }

  /** ... and then by voter within one proposal. */
  lemma NaturalKeyOrdersByVoter(v: Vote, w: Vote)
    requires v.proposalId == w.proposalId && LexLess(v.voter, w.voter)
    ensures LexLess(NaturalKey(v), NaturalKey(w))
  {
    LexLessCommonPrefix(BigEndian(v.proposalId, ID_WIDTH), v.voter, w.voter);
  }
}
