/** Step 7 of `main`: `groupby(["topic", "date"])["sentiment_score"].mean()`,
    with the date filter of step 6 that precedes it.  Columns are parallel
    sequences, one entry per row of the frame. */
module Aggregate {
  import opened Wrappers
  import opened Text

  /** A calendar date, as `.dt.date` yields it. */
  datatype Date = Date(year: int, month: int, day: int)

  /** A group-by key. */
  datatype Key = Key(topic: string, date: Date)

  /** One row of the summary table: topic, date and mean sentiment. */
  datatype SummaryRow = SummaryRow(topic: string, date: Date, mean: real)

  /** Python's ordering of `datetime.date` values. */
  predicate DateLess(a: Date, b: Date) {
    || a.year < b.year
    || (a.year == b.year && (a.month < b.month || (a.month == b.month && a.day < b.day)))
  }

  /** The order in which the group-by sorts its keys: topic first, then date. */
  predicate KeyLess(a: Key, b: Key) {
    StrLess(a.topic, b.topic) || (a.topic == b.topic && DateLess(a.date, b.date))
  }

  lemma KeyLessIrreflexive(a: Key)
    ensures !KeyLess(a, a)
  {
    StrLessIrreflexive(a.topic);
  }

  lemma KeyLessTransitive(a: Key, b: Key, c: Key)
    requires KeyLess(a, b) && KeyLess(b, c)
    ensures KeyLess(a, c)
  {
    if StrLess(a.topic, b.topic) && StrLess(b.topic, c.topic) {
      StrLessTransitive(a.topic, b.topic, c.topic);
    }
  }

  lemma KeyLessTotal(a: Key, b: Key)
    requires a != b
    ensures KeyLess(a, b) || KeyLess(b, a)
  {
    if a.topic != b.topic {
      StrLessTotal(a.topic, b.topic);
    }
  }

  ghost predicate StrictlySorted(keys: seq<Key>) {
    forall i, j | 0 <= i < j < |keys| :: KeyLess(keys[i], keys[j])
  }

  /** A row with this topic and date belongs to the group of `key`; a row
      without a date belongs to no group. */
  predicate InGroup(topic: string, date: Option<Date>, key: Key) {
    date == Some(key.date) && topic == key.topic
  }

  /** The number of rows in the group of `key`. */
  function CountFor(topic: seq<string>, date: seq<Option<Date>>, key: Key): nat
    requires |topic| == |date|
    decreases |topic|
  {
    if |topic| == 0 then 0
    else
      var n := |topic| - 1;
      CountFor(topic[..n], date[..n], key) + (if InGroup(topic[n], date[n], key) then 1 else 0)
  }

  /** The sum of the scores of the rows in the group of `key`. */
  function SumFor(topic: seq<string>, date: seq<Option<Date>>, score: seq<real>, key: Key): real
    requires |topic| == |date| == |score|
    decreases |topic|
  {
    if |topic| == 0 then 0.0
    else
      var n := |topic| - 1;
      SumFor(topic[..n], date[..n], score[..n], key) + (if InGroup(topic[n], date[n], key) then score[n] else 0.0)
  }

  function KeysOf(summary: seq<SummaryRow>): seq<Key> {
    seq(|summary|, i requires 0 <= i < |summary| => Key(summary[i].topic, summary[i].date))
  }

  /** `summary` is the group-by mean of the columns: one row per group,
      keys in ascending order, a key present exactly when its group has a
      row, and each mean the group's sum over its size. */
  ghost predicate IsGroupMean(summary: seq<SummaryRow>, topic: seq<string>, date: seq<Option<Date>>, score: seq<real>)
    requires |topic| == |date| == |score|
  {
    && StrictlySorted(KeysOf(summary))
    && (forall key :: key in KeysOf(summary) <==> CountFor(topic, date, key) > 0)
    && (forall i | 0 <= i < |summary| ::
          var key := KeysOf(summary)[i];
          CountFor(topic, date, key) > 0 &&
          summary[i].mean == SumFor(topic, date, score, key) / (CountFor(topic, date, key) as real))
  }

  /** A group is non-empty exactly when some row carries its key. */
  lemma {:induction false} CountPositiveIff(topic: seq<string>, date: seq<Option<Date>>, key: Key)
    requires |topic| == |date|
    ensures CountFor(topic, date, key) > 0 <==> exists r | 0 <= r < |topic| :: InGroup(topic[r], date[r], key)
    decreases |topic|
  {
    if |topic| > 0 {
      var n := |topic| - 1;
      CountPositiveIff(topic[..n], date[..n], key);
      if exists r | 0 <= r < n :: InGroup(topic[..n][r], date[..n][r], key) {
        var r :| 0 <= r < n && InGroup(topic[..n][r], date[..n][r], key);
        assert InGroup(topic[r], date[r], key);
      }
      if exists r | 0 <= r < |topic| :: InGroup(topic[r], date[r], key) {
        var r :| 0 <= r < |topic| && InGroup(topic[r], date[r], key);
        if r < n {
          assert InGroup(topic[..n][r], date[..n][r], key);
        }
      }
    }
  }

  /** An empty group has a zero sum. */
  lemma {:induction false} SumOfEmptyGroup(topic: seq<string>, date: seq<Option<Date>>, score: seq<real>, key: Key)
    requires |topic| == |date| == |score|
    requires CountFor(topic, date, key) == 0
    ensures SumFor(topic, date, score, key) == 0.0
    decreases |topic|
  {
    if |topic| > 0 {
      var n := |topic| - 1;
      SumOfEmptyGroup(topic[..n], date[..n], score[..n], key);
    }
  }

  /** With every score in [-1, 1], a group's sum lies within its size. */
  lemma {:induction false} SumWithinCount(topic: seq<string>, date: seq<Option<Date>>, score: seq<real>, key: Key)
    requires |topic| == |date| == |score|
    requires forall r | 0 <= r < |score| :: -1.0 <= score[r] <= 1.0
    ensures -(CountFor(topic, date, key) as real) <= SumFor(topic, date, score, key) <= CountFor(topic, date, key) as real
    decreases |topic|
  {
    if |topic| > 0 {
      var n := |topic| - 1;
      SumWithinCount(topic[..n], date[..n], score[..n], key);
    }
  }

  lemma MeanOfBoundedSum(sum: real, count: real)
    requires count > 0.0 && -count <= sum <= count
    ensures -1.0 <= sum / count <= 1.0
  {
  }

  /** Every mean of the summary lies in [-1, 1] when every score does. */
  lemma MeansInRange(summary: seq<SummaryRow>, topic: seq<string>, date: seq<Option<Date>>, score: seq<real>)
    requires |topic| == |date| == |score|
    requires forall r | 0 <= r < |score| :: -1.0 <= score[r] <= 1.0
    requires IsGroupMean(summary, topic, date, score)
    ensures forall i | 0 <= i < |summary| :: -1.0 <= summary[i].mean <= 1.0
  {
    forall i | 0 <= i < |summary|
      ensures -1.0 <= summary[i].mean <= 1.0
    {
      var key := KeysOf(summary)[i];
      SumWithinCount(topic, date, score, key);
      MeanOfBoundedSum(SumFor(topic, date, score, key), CountFor(topic, date, key) as real);
    }
  }

  /** Every summary row's key is carried by some row of the input, and
      every dated input row's key appears in the summary. */
  lemma SummaryKeysFromRows(summary: seq<SummaryRow>, topic: seq<string>, date: seq<Option<Date>>, score: seq<real>)
    requires |topic| == |date| == |score|
    requires IsGroupMean(summary, topic, date, score)
    ensures forall i | 0 <= i < |summary| :: exists r | 0 <= r < |topic| :: InGroup(topic[r], date[r], KeysOf(summary)[i])
    ensures forall r | 0 <= r < |topic| && date[r].Some? :: Key(topic[r], date[r].value) in KeysOf(summary)
  {
    forall i | 0 <= i < |summary|
      ensures exists r | 0 <= r < |topic| :: InGroup(topic[r], date[r], KeysOf(summary)[i])
    {
      CountPositiveIff(topic, date, KeysOf(summary)[i]);
    }
    forall r | 0 <= r < |topic| && date[r].Some?
      ensures Key(topic[r], date[r].value) in KeysOf(summary)
    {
      CountPositiveIff(topic, date, Key(topic[r], date[r].value));
    }
  }

  /** Inserting `key` at position `p` of a strictly sorted key list, where
      every key before `p` is smaller and the key at `p` (if any) is not
      smaller and differs, keeps the list strictly sorted; `key` was new. */
  lemma InsertKeepsSorted(keys: seq<Key>, p: nat, key: Key)
    requires StrictlySorted(keys) && p <= |keys|
    requires forall i | 0 <= i < p :: KeyLess(keys[i], key)
    requires p < |keys| ==> !KeyLess(keys[p], key) && keys[p] != key
    ensures key !in keys
    ensures StrictlySorted(keys[..p] + [key] + keys[p..])
  {
    if p < |keys| {
      KeyLessTotal(keys[p], key);
      forall j | p < j < |keys| ensures KeyLess(key, keys[j]) {
        KeyLessTransitive(key, keys[p], keys[j]);
      }
    }
    forall i | 0 <= i < |keys| ensures keys[i] != key {
      if i < p {
        KeyLessIrreflexive(key);
      } else if i > p {
        KeyLessIrreflexive(key);
      }
    }
    var ks := keys[..p] + [key] + keys[p..];
    forall i, j | 0 <= i < j < |ks| ensures KeyLess(ks[i], ks[j]) {
      if j < p || i > p {
      } else if i < p && j == p {
      } else if i < p {
        KeyLessTransitive(ks[i], key, ks[j]);
      }
    }
  }

  /** Rows with a date, in their original order: the effect of
      `dropna(subset=["date"])` on any one column. */
  function KeepDated<X>(col: seq<X>, date: seq<Option<Date>>): (kept: seq<X>)
    requires |col| == |date|
    ensures |kept| == DatedCount(date)
    decreases |col|
  {
    if |col| == 0 then []
    else
      var n := |col| - 1;
      KeepDated(col[..n], date[..n]) + (if date[n].Some? then [col[n]] else [])
  }

  /** The number of rows with a date. */
  function DatedCount(date: seq<Option<Date>>): nat
    decreases |date|
  {
    if |date| == 0 then 0
    else DatedCount(date[..|date| - 1]) + (if date[|date| - 1].Some? then 1 else 0)
  }

  /** The positions of the rows with a date, in increasing order. */
  function KeptIndices(date: seq<Option<Date>>): (ix: seq<nat>)
    ensures |ix| == DatedCount(date)
    ensures forall j | 0 <= j < |ix| :: ix[j] < |date| && date[ix[j]].Some?
    ensures forall j, k | 0 <= j < k < |ix| :: ix[j] < ix[k]
    ensures forall i | 0 <= i < |date| && date[i].Some? :: i in ix
    decreases |date|
  {
    if |date| == 0 then []
    else
      var n := |date| - 1;
      KeptIndices(date[..n]) + (if date[n].Some? then [n] else [])
  }

  /** Filtering keeps exactly the dated rows, in order and unchanged: entry
      `j` of the filtered column is entry `KeptIndices(date)[j]` of the
      original. */
  lemma {:induction false} KeepDatedPicks<X>(col: seq<X>, date: seq<Option<Date>>)
    requires |col| == |date|
    ensures |KeepDated(col, date)| == |KeptIndices(date)|
    ensures forall j | 0 <= j < |KeptIndices(date)| :: KeepDated(col, date)[j] == col[KeptIndices(date)[j]]
    decreases |col|
  {
    if |col| > 0 {
      var n := |col| - 1;
      KeepDatedPicks(col[..n], date[..n]);
    }
  }

  /** Every row left by the filter has a date. */
  lemma KeepDatedAllDated(date: seq<Option<Date>>)
    ensures forall j | 0 <= j < |KeepDated(date, date)| :: KeepDated(date, date)[j].Some?
  {
    KeepDatedPicks(date, date);
  }

  /** Appending one row changes only the group of that row. */
  lemma CountSnoc(topic: seq<string>, date: seq<Option<Date>>, t: string, d: Option<Date>, key: Key)
    requires |topic| == |date|
    ensures CountFor(topic + [t], date + [d], key) == CountFor(topic, date, key) + (if InGroup(t, d, key) then 1 else 0)
  {
    assert (topic + [t])[..|topic|] == topic;
    assert (date + [d])[..|date|] == date;
  }

  lemma SumSnoc(topic: seq<string>, date: seq<Option<Date>>, score: seq<real>, t: string, d: Option<Date>, x: real, key: Key)
    requires |topic| == |date| == |score|
    ensures SumFor(topic + [t], date + [d], score + [x], key) == SumFor(topic, date, score, key) + (if InGroup(t, d, key) then x else 0.0)
  {
    assert (topic + [t])[..|topic|] == topic;
    assert (date + [d])[..|date|] == date;
    assert (score + [x])[..|score|] == score;
  }

  /** Dropping the undated rows changes no group: rows without a date
      belong to none. */
  lemma {:induction false} GroupsIgnoreUndated(topic: seq<string>, date: seq<Option<Date>>, score: seq<real>, key: Key)
    requires |topic| == |date| == |score|
    ensures CountFor(KeepDated(topic, date), KeepDated(date, date), key) == CountFor(topic, date, key)
    ensures SumFor(KeepDated(topic, date), KeepDated(date, date), KeepDated(score, date), key) == SumFor(topic, date, score, key)
    decreases |topic|
  {
    if |topic| > 0 {
      var n := |topic| - 1;
      GroupsIgnoreUndated(topic[..n], date[..n], score[..n], key);
      var t, d, s := KeepDated(topic[..n], date[..n]), KeepDated(date[..n], date[..n]), KeepDated(score[..n], date[..n]);
      if date[n].Some? {
        assert KeepDated(topic, date) == t + [topic[n]];
        assert KeepDated(date, date) == d + [date[n]];
        assert KeepDated(score, date) == s + [score[n]];
        CountSnoc(t, d, topic[n], date[n], key);
        SumSnoc(t, d, s, topic[n], date[n], score[n], key);
      } else {
        assert KeepDated(topic, date) == t;
        assert KeepDated(date, date) == d;
        assert KeepDated(score, date) == s;
      }
      assert CountFor(topic, date, key) == CountFor(topic[..n], date[..n], key) + (if InGroup(topic[n], date[n], key) then 1 else 0);
    }
  }

  /** The group-by mean of the filtered columns is the group-by mean of the
      unfiltered ones. */
  lemma GroupMeanIgnoresUndated(summary: seq<SummaryRow>, topic: seq<string>, date: seq<Option<Date>>, score: seq<real>)
    requires |topic| == |date| == |score|
    ensures IsGroupMean(summary, KeepDated(topic, date), KeepDated(date, date), KeepDated(score, date))
       <==> IsGroupMean(summary, topic, date, score)
  {
    forall key {
      GroupsIgnoreUndated(topic, date, score, key);
    }
  }

  /** Two strictly sorted key lists with the same members are equal. */
  lemma {:induction false} SortedUnique(a: seq<Key>, b: seq<Key>)
    requires StrictlySorted(a) && StrictlySorted(b)
    requires forall k :: k in a <==> k in b
    ensures a == b
    decreases |a|
  {
    assert b != [] ==> b[0] in b;
    if a != [] {
      assert a[0] in b;
      assert b != [];
      assert b[0] in a;
      if a[0] != b[0] {
        var i :| 0 <= i < |a| && a[i] == b[0];
        var j :| 0 <= j < |b| && b[j] == a[0];
        assert KeyLess(a[0], a[i]) && KeyLess(b[0], b[j]);
        KeyLessTransitive(a[0], b[0], a[0]);
        KeyLessIrreflexive(a[0]);
      } else {
        forall k ensures k in a[1..] <==> k in b[1..] {
          if k in a[1..] {
            var i :| 0 <= i < |a[1..]| && a[1..][i] == k;
            assert KeyLess(a[0], a[i + 1]);
            KeyLessIrreflexive(k);
            assert k in b && k != b[0];
          }
          if k in b[1..] {
            var i :| 0 <= i < |b[1..]| && b[1..][i] == k;
            assert KeyLess(b[0], b[i + 1]);
            KeyLessIrreflexive(k);
            assert k in a && k != a[0];
          }
        }
        SortedUnique(a[1..], b[1..]);
        assert a == [a[0]] + a[1..] && b == [b[0]] + b[1..];
      }
    }
  }

  /** The group-by mean is determined by its input: two summaries of the
      same columns are equal. */
  lemma GroupMeanUnique(s1: seq<SummaryRow>, s2: seq<SummaryRow>, topic: seq<string>, date: seq<Option<Date>>, score: seq<real>)
    requires |topic| == |date| == |score|
    requires IsGroupMean(s1, topic, date, score) && IsGroupMean(s2, topic, date, score)
    ensures s1 == s2
  {
    SortedUnique(KeysOf(s1), KeysOf(s2));
    assert |s1| == |KeysOf(s1)| == |KeysOf(s2)| == |s2|;
    forall i | 0 <= i < |s1| ensures s1[i] == s2[i] {
      assert KeysOf(s1)[i] == KeysOf(s2)[i];
    }
  }

  /** `p` lists the positions `0 .. n-1`, each exactly once, in some order. */
  ghost predicate IsPermutation(p: seq<nat>, n: nat) {
    && |p| == n
    && (forall i | 0 <= i < n :: p[i] < n)
    && (forall i, j | 0 <= i < j < n :: p[i] != p[j])
  }

  /** Row `i` of `moved` is row `p[i]` of `col`. */
  ghost predicate Reordered<X>(p: seq<nat>, col: seq<X>, moved: seq<X>) {
    |moved| == |p| && forall i | 0 <= i < |p| :: p[i] < |col| && moved[i] == col[p[i]]
  }

  /** The rows of `col` without row `m`. */
  function Remove<X>(col: seq<X>, m: nat): (r: seq<X>)
    requires m < |col|
    ensures |r| == |col| - 1
    ensures forall i | 0 <= i < |r| :: r[i] == if i < m then col[i] else col[i + 1]
  {
    col[..m] + col[m + 1..]
  }

  /** A group's size and sum over two blocks of rows add up. */
  lemma {:induction false} GroupsAppend(t1: seq<string>, d1: seq<Option<Date>>, s1: seq<real>,
                                        t2: seq<string>, d2: seq<Option<Date>>, s2: seq<real>, key: Key)
    requires |t1| == |d1| == |s1| && |t2| == |d2| == |s2|
    ensures CountFor(t1 + t2, d1 + d2, key) == CountFor(t1, d1, key) + CountFor(t2, d2, key)
    ensures SumFor(t1 + t2, d1 + d2, s1 + s2, key) == SumFor(t1, d1, s1, key) + SumFor(t2, d2, s2, key)
    decreases |t2|
  {
    if |t2| == 0 {
      assert t1 + t2 == t1 && d1 + d2 == d1 && s1 + s2 == s1;
    } else {
      var n := |t2| - 1;
      GroupsAppend(t1, d1, s1, t2[..n], d2[..n], s2[..n], key);
      assert t1 + t2 == (t1 + t2[..n]) + [t2[n]];
      assert d1 + d2 == (d1 + d2[..n]) + [d2[n]];
      assert s1 + s2 == (s1 + s2[..n]) + [s2[n]];
      CountSnoc(t1 + t2[..n], d1 + d2[..n], t2[n], d2[n], key);
      SumSnoc(t1 + t2[..n], d1 + d2[..n], s1 + s2[..n], t2[n], d2[n], s2[n], key);
    }
  }

  /** Taking row `m` out removes exactly its share from its group. */
  lemma GroupsRemove(topic: seq<string>, date: seq<Option<Date>>, score: seq<real>, m: nat, key: Key)
    requires |topic| == |date| == |score| && m < |topic|
    ensures CountFor(topic, date, key) == CountFor(Remove(topic, m), Remove(date, m), key) + (if InGroup(topic[m], date[m], key) then 1 else 0)
    ensures SumFor(topic, date, score, key) == SumFor(Remove(topic, m), Remove(date, m), Remove(score, m), key) + (if InGroup(topic[m], date[m], key) then score[m] else 0.0)
  {
    assert topic == topic[..m] + [topic[m]] + topic[m + 1..];
    assert date == date[..m] + [date[m]] + date[m + 1..];
    assert score == score[..m] + [score[m]] + score[m + 1..];
    GroupsAppend(topic[..m] + [topic[m]], date[..m] + [date[m]], score[..m] + [score[m]], topic[m + 1..], date[m + 1..], score[m + 1..], key);
    CountSnoc(topic[..m], date[..m], topic[m], date[m], key);
    SumSnoc(topic[..m], date[..m], score[..m], topic[m], date[m], score[m], key);
    GroupsAppend(topic[..m], date[..m], score[..m], topic[m + 1..], date[m + 1..], score[m + 1..], key);
  }

  /** The rows of a permutation other than its last one, renumbered to
      skip the position the last one takes. */
  function Renumber(p: seq<nat>, m: nat): (q: seq<nat>)
    ensures |q| == |p|
    ensures forall i | 0 <= i < |p| :: q[i] == if p[i] > m then p[i] - 1 else p[i]
  {
    seq(|p|, i requires 0 <= i < |p| => if p[i] > m then p[i] - 1 else p[i])
  }

  /** Dropping the last entry of a permutation and renumbering leaves a
      permutation of one fewer position. */
  lemma RenumberIsPermutation(p: seq<nat>, n: nat)
    requires IsPermutation(p, n + 1)
    ensures IsPermutation(Renumber(p[..n], p[n]), n)
  {
    var q := Renumber(p[..n], p[n]);
    forall i | 0 <= i < n ensures q[i] < n {
      assert p[i] != p[n];
    }
    forall i, j | 0 <= i < j < n ensures q[i] != q[j] {
      assert p[i] != p[n] && p[j] != p[n] && p[i] != p[j];
    }
  }

  /** With the last moved row taken out of both sides, the renumbered
      permutation still relates the remaining rows. */
  lemma RenumberReorders<X>(p: seq<nat>, col: seq<X>, moved: seq<X>)
    requires |col| > 0 && IsPermutation(p, |col|) && Reordered(p, col, moved)
    ensures Reordered(Renumber(p[..|col| - 1], p[|col| - 1]), Remove(col, p[|col| - 1]), moved[..|col| - 1])
  {
    var n, m := |col| - 1, p[|col| - 1];
    var q := Renumber(p[..n], m);
    forall i | 0 <= i < n ensures q[i] < |Remove(col, m)| && moved[..n][i] == Remove(col, m)[q[i]] {
      assert p[i] != m;
    }
  }

  /** Reordering the rows changes no group's size or sum. */
  lemma {:induction false} GroupsIgnoreOrder(p: seq<nat>, topic: seq<string>, date: seq<Option<Date>>, score: seq<real>,
                                             topic2: seq<string>, date2: seq<Option<Date>>, score2: seq<real>, key: Key)
    requires |topic| == |date| == |score|
    requires IsPermutation(p, |topic|)
    requires Reordered(p, topic, topic2) && Reordered(p, date, date2) && Reordered(p, score, score2)
    ensures CountFor(topic2, date2, key) == CountFor(topic, date, key)
    ensures SumFor(topic2, date2, score2, key) == SumFor(topic, date, score, key)
    decreases |topic|
  {
    if |topic| > 0 {
      var n := |topic| - 1;
      var m := p[n];
      RenumberIsPermutation(p, n);
      RenumberReorders(p, topic, topic2);
      RenumberReorders(p, date, date2);
      RenumberReorders(p, score, score2);
      GroupsIgnoreOrder(Renumber(p[..n], m), Remove(topic, m), Remove(date, m), Remove(score, m), topic2[..n], date2[..n], score2[..n], key);
      GroupsRemove(topic, date, score, m, key);
    }
  }

  /** The group-by mean does not depend on the order of the rows. */
  lemma GroupMeanIgnoresOrder(summary: seq<SummaryRow>, p: seq<nat>, topic: seq<string>, date: seq<Option<Date>>, score: seq<real>,
                              topic2: seq<string>, date2: seq<Option<Date>>, score2: seq<real>)
    requires |topic| == |date| == |score|
    requires IsPermutation(p, |topic|)
    requires Reordered(p, topic, topic2) && Reordered(p, date, date2) && Reordered(p, score, score2)
    ensures IsGroupMean(summary, topic2, date2, score2) <==> IsGroupMean(summary, topic, date, score)
  {
    forall key {
      GroupsIgnoreOrder(p, topic, date, score, topic2, date2, score2, key);
    }
  }

  /** Two summaries of the same rows in two orders are equal. */
  lemma SummaryIgnoresOrder(s1: seq<SummaryRow>, s2: seq<SummaryRow>, p: seq<nat>, topic: seq<string>, date: seq<Option<Date>>, score: seq<real>,
                            topic2: seq<string>, date2: seq<Option<Date>>, score2: seq<real>)
    requires |topic| == |date| == |score|
    requires IsPermutation(p, |topic|)
    requires Reordered(p, topic, topic2) && Reordered(p, date, date2) && Reordered(p, score, score2)
    requires IsGroupMean(s1, topic, date, score) && IsGroupMean(s2, topic2, date2, score2)
    ensures s1 == s2
  {
    GroupMeanIgnoresOrder(s2, p, topic, date, score, topic2, date2, score2);
    GroupMeanUnique(s1, s2, topic, date, score);
  }

  /** Three rows: two "other" rows on the same day scored 1.0 and 0.0, and
      an "unemployment" row whose timestamp did not parse.  The summary is
      the single row ("other", that day, 0.5). */
  lemma GroupMeanExample(summary: seq<SummaryRow>)
    requires IsGroupMean(summary, ["other", "other", "unemployment"],
      [Some(Date(2024, 1, 5)), Some(Date(2024, 1, 5)), None], [1.0, 0.0, 1.0])
    ensures summary == [SummaryRow("other", Date(2024, 1, 5), 0.5)]
  {
    ExampleGroups(["other", "other", "unemployment"],
      [Some(Date(2024, 1, 5)), Some(Date(2024, 1, 5)), None], [1.0, 0.0, 1.0],
      [SummaryRow("other", Date(2024, 1, 5), 0.5)]);
    GroupMeanUnique(summary, [SummaryRow("other", Date(2024, 1, 5), 0.5)], ["other", "other", "unemployment"],
      [Some(Date(2024, 1, 5)), Some(Date(2024, 1, 5)), None], [1.0, 0.0, 1.0]);
  }

  lemma ExampleGroups(topic: seq<string>, date: seq<Option<Date>>, score: seq<real>, expected: seq<SummaryRow>)
    requires topic == ["other", "other", "unemployment"]
    requires date == [Some(Date(2024, 1, 5)), Some(Date(2024, 1, 5)), None]
    requires score == [1.0, 0.0, 1.0]
    requires expected == [SummaryRow("other", Date(2024, 1, 5), 0.5)]
    ensures IsGroupMean(expected, topic, date, score)
  {
    var key := Key("other", Date(2024, 1, 5));
    assert KeysOf(expected) == [key];
    forall k ensures k in KeysOf(expected) <==> CountFor(topic, date, k) > 0 {
      CountPositiveIff(topic, date, k);
    }
    assert topic[..2][..1] == topic[..1] && date[..2][..1] == date[..1] && score[..2][..1] == score[..1];
    assert topic[..3] == topic && date[..3] == date && score[..3] == score;
    assert topic[..3][..2] == topic[..2] && date[..3][..2] == date[..2] && score[..3][..2] == score[..2];
    assert CountFor(topic[..1], date[..1], key) == 1;
    assert CountFor(topic[..2], date[..2], key) == 2;
    assert CountFor(topic, date, key) == 2;
    assert SumFor(topic[..1], date[..1], score[..1], key) == 1.0;
    assert SumFor(topic[..2], date[..2], score[..2], key) == 1.0;
    assert SumFor(topic, date, score, key) == 1.0;
  }

  /** `df.groupby(["topic", "date"])["sentiment_score"].mean().reset_index()`:
      a pass over the rows keeping, per key met so far, its sum and count in
      ascending key order; then one mean per key. */
  method GroupMean(topic: seq<string>, date: seq<Option<Date>>, score: seq<real>) returns (summary: seq<SummaryRow>)
    requires |topic| == |date| == |score|
    ensures IsGroupMean(summary, topic, date, score)
  {
    var keys: seq<Key> := [];
    var sums: seq<real> := [];
    var counts: seq<nat> := [];
    for k := 0 to |topic|
      invariant |sums| == |keys| && |counts| == |keys|
      invariant StrictlySorted(keys)
      invariant forall i | 0 <= i < |keys| ::
        && counts[i] == CountFor(topic[..k], date[..k], keys[i])
        && sums[i] == SumFor(topic[..k], date[..k], score[..k], keys[i])
      invariant forall key :: key in keys <==> CountFor(topic[..k], date[..k], key) > 0
    {
      assert topic[..k + 1][..k] == topic[..k];
      assert date[..k + 1][..k] == date[..k];
      assert score[..k + 1][..k] == score[..k];
      if date[k].Some? {
        var key := Key(topic[k], date[k].value);
        var p := 0;
        while p < |keys| && KeyLess(keys[p], key)
          invariant 0 <= p <= |keys|
          invariant forall i | 0 <= i < p :: KeyLess(keys[i], key)
        {
          p := p + 1;
        }
        if p < |keys| && keys[p] == key {
          sums := sums[p := sums[p] + score[k]];
          counts := counts[p := counts[p] + 1];
        } else {
          InsertKeepsSorted(keys, p, key);
          SumOfEmptyGroup(topic[..k], date[..k], score[..k], key);
          keys := keys[..p] + [key] + keys[p..];
          sums := sums[..p] + [score[k]] + sums[p..];
          counts := counts[..p] + [1] + counts[p..];
        }
      }
    }
    assert topic[..|topic|] == topic && date[..|date|] == date && score[..|score|] == score;
    summary := seq(|keys|, i requires 0 <= i < |keys| && counts[i] > 0 =>
      SummaryRow(keys[i].topic, keys[i].date, sums[i] / (counts[i] as real)));
    assert KeysOf(summary) == keys;
  }
}
