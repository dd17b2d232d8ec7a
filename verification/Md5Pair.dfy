/** The search and the digest together: what the search finds is two messages with one digest. */
module Md5Pair {
  import opened Basics
  import opened Md5Spec
  import opened Md5Path
  import opened Md5Account
  import opened Md5Search
  import opened Md5Stream

  /** Words that differ somewhere are spelled by octets that differ somewhere. */
  lemma OctetsDiffer(x: seq<Word>, y: seq<Word>, k: nat)
    requires k < |x| == |y| && x[k] != y[k]
    ensures WordsToOctets(x) != WordsToOctets(y)
  {
    hide WordOctet, WordsToOctets;
    WordRoundTrip(x[k]);
    WordRoundTrip(y[k]);
    OctetsOfWord(x, k, 0); OctetsOfWord(x, k, 1); OctetsOfWord(x, k, 2); OctetsOfWord(x, k, 3);
    OctetsOfWord(y, k, 0); OctetsOfWord(y, k, 1); OctetsOfWord(y, k, 2); OctetsOfWord(y, k, 3);
  }

  predicate ChunksFit(chunks: seq<seq<Octet>>) { forall c | c in chunks :: |c| <= INT_MAX - 63 }

  /** Runs the search from the chaining value that a prefix of whole blocks leads to, and feeds the
      prefix, what was found and any suffix to the streaming digest, cut into any chunks. A normal
      return of the search means two different messages with one digest. */
  method FindAndDigest(search: Search, before: seq<seq<Octet>>, behind: seq<seq<Octet>>)
    returns (found: bool, digest0: seq<Octet>, digest1: seq<Octet>, ghost first: seq<Try>, ghost second: seq<Try>)
    requires search.Arrays() && |Concat(before)| % 64 == 0 && search.iv == Fold(INIT, Concat(before))
    requires ChunksFit(before) && ChunksFit(behind)
    modifies search.Q0, search.Q1, search.X0, search.X1, search`mid0, search`mid1, search`tape
    ensures found ==> digest0 == digest1
    ensures found ==> digest0 == Digest(Concat(before) + WordsToOctets(search.X0[..]) + Concat(behind))
    ensures found ==> digest1 == Digest(Concat(before) + WordsToOctets(search.X1[..]) + Concat(behind))
    ensures found ==> WordsToOctets(search.X0[..]) != WordsToOctets(search.X1[..])
    ensures found ==> forall k :: 0 <= k < 32 ==>
      (search.X0[k] != search.X1[k] <==> k in {4, 11, 14, 20, 27, 30})
    ensures Taken(first) + Taken(second) + search.tape == old(search.tape) && (!found ==> search.tape == [])
    ensures WholeAccount(search.iv, first, second) && (found <==> SpotAfter(true, second) == Done2)
  {
    hide WholeAccount, SpotAfter, Taken, Fold, Digest, TwoBlocks, WordsToOctets, Xor, WordDelta, Concat;
    digest0, digest1 := [], [];
    found, first, second := search.FindPair();
    if found {
      var x0, x1 := search.X0[..], search.X1[..];
      PairCollides(Concat(before), Concat(behind), x0, x1);
      forall k | 0 <= k < 32 ensures x0[k] != x1[k] <==> k in {4, 11, 14, 20, 27, 30} {
        assert Xor(search.X0[k], search.X1[k]) == WordDelta(k % 16);
        PairDiffers(x0, x1, k);
      }
      OctetsDiffer(x0, x1, 4);
      digest0 := DigestBetween(before, x0, behind);
      digest1 := DigestBetween(before, x1, behind);
    }
  }

  method DigestBetween(before: seq<seq<Octet>>, x: seq<Word>, behind: seq<seq<Octet>>)
    returns (digest: seq<Octet>)
    requires |x| == 32 && ChunksFit(before) && ChunksFit(behind)
    ensures digest == Digest(Concat(before) + WordsToOctets(x) + Concat(behind))
  {
    hide Digest, WordOctet, Concat;
    var octets := WordsToOctets(x);
    digest := DigestOfChunks(before + [octets] + behind);
    ConcatAppend(before, [octets]);
    ConcatAppend(before + [octets], behind);
    ConcatOne(octets);
  }

  lemma Regroup3(s: seq<Octet>, t: seq<Octet>, u: seq<Octet>)
    ensures (s + t) + u == s + (t + u)
  {
  }

  lemma {:induction false} ConcatAppend(a: seq<seq<Octet>>, b: seq<seq<Octet>>)
    ensures Concat(a + b) == Concat(a) + Concat(b)
    decreases |b|
  {
    if b == [] {
      assert a + b == a;
    } else {
      hide Concat;
      var front, c := Front(b), Last(b);
      ConcatAppend(a, front);
      assert b == Front(b) + [Last(b)] && a + b == (a + Front(b)) + [Last(b)];
      Regroup3(Concat(a), Concat(front), c);
    }
  }

  lemma ConcatOne(c: seq<Octet>)
    ensures Concat([c]) == c
  {
    assert [c][..0] == [];
  }
}
