/**
 * Selection of the labels to show from the classifier's output: every
 * (label, score) pair goes through a min-priority queue ordered by score
 * that is cut back to RESULTS_TO_SHOW entries after each insertion, and the
 * queue is then drained smallest first into the result.
 */
module TopLabels {
  import opened Wrappers

  const RESULTS_TO_SHOW: nat := 3

  /** A Kotlin `Byte`, as the interpreter's output array holds it: signed. */
  type SByte = x: int | -128 <= x < 128

  /** `b.toInt() and 0xff`: the byte read as unsigned. */
  function UnsignedScore(b: SByte): (r: int)
    ensures 0 <= r < 256
    ensures b >= 0 ==> r == b
    ensures b < 0 ==> r == b + 256
  {
    b % 256
  }

  /** A queue entry: a label and its score, the unsigned output byte. */
  datatype Entry = Entry(key: string, score: int)

  /** The exception getTopLabels throws while reading the output row. */
  datatype Error = IndexOutOfBounds(index: nat)

  function Min(a: nat, b: nat): nat
  {
    if a <= b then a else b
  }

  /** The scores of s never decrease from left to right. */
  ghost predicate Ascending(s: seq<Entry>)
  {
    forall i, j | 0 <= i < j < |s| :: s[i].score <= s[j].score
  }

  /**
   * kept is a top-k of all by score: it is drawn from all, it has as many
   * entries as fit, and no entry left out scores above an entry kept.
   */
  ghost predicate IsTopK(kept: multiset<Entry>, all: multiset<Entry>, k: nat)
  {
    && kept <= all
    && |kept| == Min(k, |all|)
    && forall x, y | x in kept && y in all - kept :: y.score <= x.score
  }

  /** Index of the first entry of s with the smallest score. */
  function MinIndex(s: seq<Entry>): (k: nat)
    requires |s| > 0
    ensures k < |s|
    ensures forall j | 0 <= j < |s| :: s[k].score <= s[j].score
  {
    if |s| == 1 then 0
    else
      var k := MinIndex(s[1..]);
      if s[0].score <= s[1..][k].score then 0 else k + 1
  }

  /** Removing index k from s removes one occurrence of s[k] from its multiset. */
  lemma RemoveAt(s: seq<Entry>, k: nat)
    requires k < |s|
    ensures multiset(s[..k] + s[k + 1..]) == multiset(s) - multiset{s[k]}
  {
    assert s == s[..k] + [s[k]] + s[k + 1..];
  }

  /**
   * java.util.PriorityQueue under the comparator on scores. The element
   * order inside the queue is not observable through add, poll and size.
   */
  class LabelQueue {
    var elems: seq<Entry>

    constructor ()
      ensures elems == []
    {
      elems := [];
    }

    function Size(): nat
      reads this
    {
      |elems|
    }

    /** add: the entry joins the queue. */
    method Add(e: Entry)
      modifies this
      ensures multiset(elems) == old(multiset(elems)) + multiset{e}
    {
      elems := elems + [e];
    }

    /** poll: removes and returns an entry of least score; null when empty. */
    method Poll() returns (r: Option<Entry>)
      modifies this
      ensures old(elems) == [] ==> r == None && elems == []
      ensures old(elems) != [] ==> r.Some? && r.value in old(multiset(elems))
      ensures old(elems) != [] ==> forall x | x in old(multiset(elems)) :: r.value.score <= x.score
      ensures old(elems) != [] ==> multiset(elems) == old(multiset(elems)) - multiset{r.value}
    {
      if elems == [] {
        r := None;
      } else {
        var k := MinIndex(elems);
        r := Some(elems[k]);
        RemoveAt(elems, k);
        elems := elems[..k] + elems[k + 1..];
      }
    }
  }

  /** Row 0 of the interpreter's output, empty when the output has no row. */
  function Row(labelProbArray: seq<seq<SByte>>): seq<SByte>
  {
    if labelProbArray == [] then [] else labelProbArray[0]
  }

  /** The entries built for labels[i] and row[i], in label order. */
  function Entries(labels: seq<string>, row: seq<SByte>): seq<Entry>
    requires |labels| <= |row|
  {
    seq(|labels|, i requires 0 <= i < |labels| => Entry(labels[i], UnsignedScore(row[i])))
  }

  /** One more label read extends the entries by one. */
  lemma EntriesStep(labels: seq<string>, row: seq<SByte>, i: nat)
    requires i < |labels| && i < |row|
    ensures multiset(Entries(labels[..i + 1], row))
         == multiset(Entries(labels[..i], row)) + multiset{Entry(labels[i], UnsignedScore(row[i]))}
  {
    assert Entries(labels[..i + 1], row) == Entries(labels[..i], row) + [Entry(labels[i], UnsignedScore(row[i]))];
  }

  /** Inserting into a queue that is not yet full keeps a top-k. */
  lemma {:induction false} AddKeepsTopK(kept: multiset<Entry>, all: multiset<Entry>, e: Entry, k: nat)
    requires IsTopK(kept, all, k) && |kept| < k
    ensures IsTopK(kept + multiset{e}, all + multiset{e}, k)
  {
    assert |all - kept| == |all| - |kept| == 0;
    assert kept == all;
    assert all + multiset{e} - (kept + multiset{e}) == multiset{};
  }

  /** Inserting into a full queue and evicting a minimum keeps a top-k. */
  lemma {:induction false} AddPollKeepsTopK(kept: multiset<Entry>, all: multiset<Entry>, e: Entry, m: Entry, k: nat)
    requires IsTopK(kept, all, k) && |kept| == k
    requires m in kept + multiset{e}
    requires forall x | x in kept + multiset{e} :: m.score <= x.score
    ensures IsTopK(kept + multiset{e} - multiset{m}, all + multiset{e}, k)
  {
  }

  /** Two top-k selections of the same entries differ only among equal scores. */
  lemma TopKDifferOnlyInTies(kept1: multiset<Entry>, kept2: multiset<Entry>, all: multiset<Entry>, k: nat)
    requires IsTopK(kept1, all, k) && IsTopK(kept2, all, k)
    ensures forall x, y | x in kept1 - kept2 && y in kept2 - kept1 :: x.score == y.score
  {
  }

  /**
   * The classifier front end: its label list, and the priority queue it
   * shares with every other instance (a companion-object field).
   */
  class TextRecognizer {
    const labelList: seq<string>
    const sortedLabels: LabelQueue

    /** Between calls the shared queue never holds more than RESULTS_TO_SHOW entries. */
    ghost predicate Valid()
      reads this, sortedLabels
    {
      |sortedLabels.elems| <= RESULTS_TO_SHOW
    }

    constructor (labels: seq<string>, queue: LabelQueue)
      requires |queue.elems| <= RESULTS_TO_SHOW
      ensures labelList == labels && sortedLabels == queue
      ensures Valid()
    {
      labelList := labels;
      sortedLabels := queue;
    }

    /**
     * The body of the first loop of getTopLabels: add the entry, then poll
     * the minimum if the queue has grown past RESULTS_TO_SHOW. If the queue
     * held a top-RESULTS_TO_SHOW of seen, it now holds one of seen plus e.
     */
    method AddBounded(e: Entry, ghost seen: multiset<Entry>)
      requires Valid()
      requires IsTopK(multiset(sortedLabels.elems), seen, RESULTS_TO_SHOW)
      modifies sortedLabels
      ensures Valid()
      ensures IsTopK(multiset(sortedLabels.elems), seen + multiset{e}, RESULTS_TO_SHOW)
      ensures multiset(sortedLabels.elems) <= old(multiset(sortedLabels.elems)) + multiset{e}
      ensures |old(sortedLabels.elems)| < RESULTS_TO_SHOW ==>
                multiset(sortedLabels.elems) == old(multiset(sortedLabels.elems)) + multiset{e}
      ensures |old(sortedLabels.elems)| == RESULTS_TO_SHOW ==> |sortedLabels.elems| == RESULTS_TO_SHOW
    {
      ghost var kept := multiset(sortedLabels.elems);
      sortedLabels.Add(e);
      if sortedLabels.Size() > RESULTS_TO_SHOW {
        var evicted := sortedLabels.Poll();
        AddPollKeepsTopK(kept, seen, e, evicted.value, RESULTS_TO_SHOW);
      } else {
        AddKeepsTopK(kept, seen, e, RESULTS_TO_SHOW);
      }
    }

    /**
     * The second loop of getTopLabels: poll as many times as the queue has
     * entries. The result holds exactly the queue's entries, smallest score
     * first, and the queue is left empty.
     */
    method DrainSortedLabels() returns (result: seq<Entry>)
      modifies sortedLabels
      ensures multiset(result) == old(multiset(sortedLabels.elems))
      ensures Ascending(result)
      ensures sortedLabels.elems == []
    {
      ghost var kept := multiset(sortedLabels.elems);
      result := [];
      var size := sortedLabels.Size();
      for i := 0 to size
        invariant |sortedLabels.elems| == size - i
        invariant multiset(result) + multiset(sortedLabels.elems) == kept
        invariant Ascending(result)
        invariant forall x, y | x in result && y in multiset(sortedLabels.elems) :: x.score <= y.score
      {
        var polled := sortedLabels.Poll();
        result := result + [polled.value];
      }
    }

    /**
     * getTopLabels. On success the result is a top-RESULTS_TO_SHOW of the
     * entries left in the queue beforehand together with this call's
     * entries, in ascending score order, and the queue is empty afterwards.
     * A row shorter than the label list raises an index error part way, and
     * the queue then keeps a top-RESULTS_TO_SHOW of what was read so far.
     */
    method GetTopLabels(labelProbArray: seq<seq<SByte>>) returns (r: Result<seq<Entry>, Error>)
      requires Valid()
      modifies sortedLabels
      ensures Valid()
      ensures r.Success? <==> |labelList| <= |Row(labelProbArray)|
      ensures r.Success? ==>
        && IsTopK(multiset(r.value),
                  old(multiset(sortedLabels.elems)) + multiset(Entries(labelList, Row(labelProbArray))),
                  RESULTS_TO_SHOW)
        && Ascending(r.value)
        && sortedLabels.elems == []
      ensures r.Success? && old(sortedLabels.elems) == [] ==>
        && |r.value| == Min(RESULTS_TO_SHOW, |labelList|)
        && IsTopK(multiset(r.value), multiset(Entries(labelList, Row(labelProbArray))), RESULTS_TO_SHOW)
      ensures r.Failure? ==>
        && r.error == IndexOutOfBounds(|Row(labelProbArray)|)
        && IsTopK(multiset(sortedLabels.elems),
                  old(multiset(sortedLabels.elems))
                    + multiset(Entries(labelList[..|Row(labelProbArray)|], Row(labelProbArray))),
                  RESULTS_TO_SHOW)
    {
      var row := Row(labelProbArray);
      ghost var before := multiset(sortedLabels.elems);
      ghost var seen := before;
      for i := 0 to |labelList|
        invariant Valid()
        invariant i <= |row|
        invariant seen == before + multiset(Entries(labelList[..i], row))
        invariant IsTopK(multiset(sortedLabels.elems), seen, RESULTS_TO_SHOW)
      {
        if i >= |row| {
          return Failure(IndexOutOfBounds(i));
        }
        var e := Entry(labelList[i], UnsignedScore(row[i]));
        AddBounded(e, seen);
        EntriesStep(labelList, row, i);
        seen := seen + multiset{e};
      }
      assert labelList[..|labelList|] == labelList;
      var result := DrainSortedLabels();
      r := Success(result);
    }
  }

  /**
   * Two calls in a row on the same recognizer: once the first has succeeded,
   * the second selects from its own output only.
   */
  method SecondCallIgnoresFirst(rec: TextRecognizer, first: seq<seq<SByte>>, second: seq<seq<SByte>>)
    returns (r1: Result<seq<Entry>, Error>, r2: Result<seq<Entry>, Error>)
    requires rec.Valid()
    modifies rec.sortedLabels
    ensures rec.Valid()
    ensures r1.Success? && |rec.labelList| <= |Row(second)| ==>
      r2.Success? && IsTopK(multiset(r2.value), multiset(Entries(rec.labelList, Row(second))), RESULTS_TO_SHOW)
  {
    r1 := rec.GetTopLabels(first);
    r2 := rec.GetTopLabels(second);
  }
}
