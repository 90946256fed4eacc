/** syscall.c's ring of the last five trace lines. */
module TraceRing {

  /** One 100-byte row, zero after its text. */
  function Padded(text: string): string
    requires |text| < 100
  {
    text + seq(100 - |text|, _ => '\0')
  }

  ghost predicate Line(text: string) {
    |text| < 100 && forall i :: 0 <= i < |text| ==> text[i] != '\0'
  }

  /** The number of the latest of k records that belongs in row j, or none yet. */
  function Latest(k: nat, j: nat): int
    requires j < 5
  {
    if k == 0 then -1 else if (k - 1) % 5 == j then k - 1 else Latest(k - 1, j)
  }

  lemma SameRow(m: int, k: int)
    requires k - 5 <= m < k && m % 5 == (k - 1) % 5
    ensures m == k - 1
  {
  }

  /** The latest record in a row is one of the last five, and every one of the last five is in its row. */
  lemma {:induction false} LatestMeaning(k: nat, j: nat)
    requires j < 5
    ensures var m := Latest(k, j); -1 <= m < k && (m >= 0 ==> m % 5 == j && k - 5 <= m) && (m == -1 <==> k <= j)
    ensures forall m: nat :: k - 5 <= m < k && m % 5 == j ==> Latest(k, j) == m
  {
    if k > 0 {
      LatestMeaning(k - 1, j);
      if (k - 1) % 5 == j {
        forall m: nat | k - 5 <= m < k && m % 5 == j ensures m == k - 1 {
          SameRow(m, k);
        }
      }
    }
  }

  /** Row j after the given records: the latest record whose number is j modulo 5, and nothing else. */
  ghost predicate RowIs(row: string, recs: seq<string>, j: nat)
    requires j < 5
  {
    var m := Latest(|recs|, j);
    if 0 <= m < |recs| then |recs[m]| < 100 && row == Padded(recs[m]) else row == Padded("")
  }

  class Ring {
    var rows: seq<string>
    var start: nat
    var end: nat
    var wrap: bool
    ghost var recs: seq<string>

    ghost predicate Valid()
      reads this
    {
      && |rows| == 5 && start == |recs| % 5 && wrap == (|recs| >= 5) && end == (if |recs| >= 5 then start else 0)
      && (forall k :: 0 <= k < |recs| ==> Line(recs[k]))
      && (forall j :: 0 <= j < 5 ==> RowIs(rows[j], recs, j))
    }

    constructor ()
      ensures Valid() && recs == []
    {
      rows := seq(5, _ => Padded(""));
      start, end, wrap, recs := 0, 0, false, [];
    }

    /** strlen and memset: zero a row up to its first zero byte. */
    method Clear(row: string, ghost text: string) returns (r: string)
      requires Line(text) && row == Padded(text)
      ensures r == Padded("")
    {
      var n := 0;
      while row[n] != '\0'
        invariant n <= |text|
        decreases |text| - n
      {
        n := n + 1;
      }
      r := seq(n, _ => '\0') + row[n..];
    }

    /** The copying loop, into an empty row. */
    method Copy(empty: string, text: string) returns (row: string)
      requires Line(text) && empty == Padded("")
      ensures row == Padded(text)
    {
      row := empty;
      var i := 0;
      while i < |text|
        invariant 0 <= i <= |text| && |row| == 100
        invariant forall k :: 0 <= k < 100 ==> row[k] == if k < i then text[k] else '\0'
      {
        row := row[i := text[i]];
        i := i + 1;
      }
    }

    /** adding: the oldest row is emptied once the ring has wrapped, then the record is copied in. */
    method Add(text: string)
      requires Valid() && Line(text)
      modifies this
      ensures Valid() && recs == old(recs) + [text]
    {
      LatestMeaning(|recs|, start);
      assert RowIs(rows[start], recs, start);
      Turn(|recs|);
      hide Padded, Latest;
      var empty := rows[start];
      if start == end && wrap {
        empty := Clear(rows[end], recs[Latest(|recs|, start)]);
        end := (end + 1) % 5;
      }
      var row := Copy(empty, text);
      hide RowIs;
      rows := rows[start := row];
      start := (start + 1) % 5;
      if start == 0 {
        wrap := true;
      }
      recs := recs + [text];
      forall j | 0 <= j < 5 ensures RowIs(rows[j], recs, j) {
        RowStep(old(rows)[j], old(recs), j, text);
      }
    }
  }

  lemma Turn(k: nat)
    ensures (k % 5 + 1) % 5 == (k + 1) % 5 && (k < 5 ==> k % 5 == k) && ((k + 1) % 5 == 0 ==> k >= 4)
  {
  }

  lemma RowStep(row: string, recs: seq<string>, j: nat, text: string)
    requires j < 5 && RowIs(row, recs, j) && Line(text)
    ensures RowIs(if j == |recs| % 5 then Padded(text) else row, recs + [text], j)
  {
    LatestMeaning(|recs|, j);
    hide Padded;
  }
}
