/** The header block of the log as bytes (log.c, struct logheader). */
module LogHeader {
  import opened Blocks
  import opened LogFormat

  /** A count that read_head can copy within its array. */
  predicate Readable(h: Block) {
    Word(h, 0) <= LOGSIZE
  }

  predicate Erased(h: Block) {
    Readable(h) && Listed(h) == []
  }

  /** The block numbers a header block lists. */
  function Listed(h: Block): (bs: seq<nat>) {
    if Readable(h) then Entries(h, Word(h, 0)) else []
  }

  /** The first n entries of a header's block array. */
  function Entries(h: Block, n: nat): (bs: seq<nat>)
    requires n <= LOGSIZE
    ensures |bs| == n
    ensures forall i :: 0 <= i < n ==> bs[i] == Word(h, i + 1)
  {
    if n == 0 then [] else Entries(h, n - 1) + [Word(h, n)]
  }

  lemma {:induction false} EntriesAre(h: Block, bs: seq<nat>, n: nat)
    requires n <= |bs| <= LOGSIZE && forall i :: 0 <= i < n ==> Word(h, i + 1) == bs[i]
    ensures Entries(h, n) == bs[..n]
  {
    if n > 0 {
      EntriesAre(h, bs, n - 1);
    }
  }

  /** A header block lists what its words say. */
  lemma ListedIs(h: Block, bs: seq<nat>)
    requires |bs| <= LOGSIZE && Word(h, 0) == |bs|
    requires forall i :: 0 <= i < |bs| ==> Word(h, i + 1) == bs[i]
    ensures Readable(h) && Listed(h) == bs
  {
    EntriesAre(h, bs, |bs|);
  }
}
