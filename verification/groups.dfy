/** Group-and-sum aggregation over (key, value) entries, and the ranking
    applied to its result (descending sort, top N).

    Entries are built from a filtered frame: one per row, its key the row's
    group column and its value the aligned value series. A missing key puts
    the row in no group; a missing value adds nothing to its group's sum.
 */
module Groups {
  import opened Cells
  import opened Frames

  datatype Entry<K> = Entry(key: Option<K>, value: Option<real>)

  datatype Group<K> = Group(key: K, total: real)

  /** An entry with both its key and its value present. */
  predicate Complete<K>(e: Entry<K>)
  {
    e.key.Some? && e.value.Some?
  }

  /** `dropna(subset=[key, value])`: keeps the entries with both present. */
  function DropIncomplete<K(==,!new)>(es: seq<Entry<K>>): (r: seq<Entry<K>>)
    ensures forall e :: e in r ==> e.key.Some? && e.value.Some?
    ensures forall e :: e in es && e.key.Some? && e.value.Some? ==> e in r
    ensures forall e :: multiset(r)[e] == if e.key.Some? && e.value.Some? then multiset(es)[e] else 0
    ensures Subseq(r, es)
  {
    KeepCount(es, Complete);
    Keep(es, Complete)
  }

  /** Reference sum for one group: the present values of the entries whose
      key is `k`. */
  function KeySum<K(==,!new)>(es: seq<Entry<K>>, k: K): real
  {
    if |es| == 0 then 0.0
    else
      var e := es[|es| - 1];
      KeySum(es[..|es| - 1], k) + (if e.key == Some(k) then OrZero(e.value) else 0.0)
  }

  /** Dropping incomplete entries changes no group's reference sum: a
      keyless entry belongs to no group and a missing value adds nothing. */
  lemma KeySumDrop<K(!new)>(es: seq<Entry<K>>, k: K)
    ensures KeySum(DropIncomplete(es), k) == KeySum(es, k)
  {
    KeySumKeep(es, k);
  }

  /** `KeySumDrop`, stated on the mask itself. */
  lemma {:induction false} KeySumKeep<K(!new)>(es: seq<Entry<K>>, k: K)
    ensures KeySum(Keep(es, Complete), k) == KeySum(es, k)
    decreases |es|
  {
    if |es| > 0 {
      var init := es[..|es| - 1];
      var e := es[|es| - 1];
      assert es == init + [e];
      KeySumKeep(init, k);
      KeySumSnoc(init, e, k);
      KeepSnoc(init, e, Complete);
      var d := Keep(init, Complete);
      if Complete(e) {
        assert Keep(es, Complete) == d + [e];
        KeySumSnoc(d, e, k);
      } else {
        assert Keep(es, Complete) == d;
        assert (if e.key == Some(k) then OrZero(e.value) else 0.0) == 0.0;
      }
    }
  }

  /** One more entry adds its value to its own key's sum. */
  lemma KeySumSnoc<K(!new)>(es: seq<Entry<K>>, e: Entry<K>, k: K)
    ensures KeySum(es + [e], k) == KeySum(es, k) + (if e.key == Some(k) then OrZero(e.value) else 0.0)
  {
    assert (es + [e])[..|es|] == es;
  }

  /** The keys of the entries that have both a key and a value. */
  function CompleteKeys<K>(es: seq<Entry<K>>): set<K>
  {
    set i | 0 <= i < |es| && es[i].key.Some? && es[i].value.Some? :: es[i].key.value
  }

  /** After `dropna`, the present keys are the keys of complete entries. */
  lemma PresentKeysDrop<K(!new)>(es: seq<Entry<K>>)
    ensures PresentKeys(DropIncomplete(es)) == CompleteKeys(es)
  {
    var d := DropIncomplete(es);
    forall k | k in PresentKeys(d)
      ensures k in CompleteKeys(es)
    {
      var i :| 0 <= i < |d| && d[i].key.Some? && d[i].key.value == k;
      assert d[i] in d;
      var j :| 0 <= j < |es| && es[j] == d[i];
    }
    forall k | k in CompleteKeys(es)
      ensures k in PresentKeys(d)
    {
      var j :| 0 <= j < |es| && es[j].key.Some? && es[j].value.Some? && es[j].key.value == k;
      assert es[j] in es;
      var i :| 0 <= i < |d| && d[i] == es[j];
    }
  }

  /** The distinct non-missing keys of the entries. */
  function PresentKeys<K>(es: seq<Entry<K>>): set<K>
  {
    set i | 0 <= i < |es| && es[i].key.Some? :: es[i].key.value
  }

  /** The keys of a group list. */
  function GroupKeys<K>(gs: seq<Group<K>>): set<K>
  {
    set i | 0 <= i < |gs| :: gs[i].key
  }

  predicate DistinctKeys<K(==,!new)>(gs: seq<Group<K>>)
  {
    forall i, j :: 0 <= i < j < |gs| ==> gs[i].key != gs[j].key
  }

  /** The total of the group with key `k`, or 0 when there is none. */
  function Lookup<K(==,!new)>(gs: seq<Group<K>>, k: K): real
  {
    if |gs| == 0 then 0.0
    else if gs[0].key == k then gs[0].total
    else Lookup(gs[1..], k)
  }

  /** Sum of all group totals. */
  function SumTotals<K>(gs: seq<Group<K>>): real
  {
    if |gs| == 0 then 0.0 else gs[0].total + SumTotals(gs[1..])
  }

  /** The keys of a group list with one more group in front. */
  lemma GroupKeysCons<K>(g: Group<K>, gs: seq<Group<K>>)
    ensures GroupKeys([g] + gs) == {g.key} + GroupKeys(gs)
  {
    var r := [g] + gs;
    forall x | x in GroupKeys(r)
      ensures x in {g.key} + GroupKeys(gs)
    {
      var i :| 0 <= i < |r| && r[i].key == x;
      if i > 0 {
        assert gs[i - 1].key == x;
      }
    }
    forall x | x in {g.key} + GroupKeys(gs)
      ensures x in GroupKeys(r)
    {
      if x == g.key {
        assert r[0].key == x;
      } else {
        var i :| 0 <= i < |gs| && gs[i].key == x;
        assert r[i + 1].key == x;
      }
    }
  }

  /** Adds `v` to the group `k`, opening that group at the end when it is new. */
  function Add<K(==,!new)>(gs: seq<Group<K>>, k: K, v: real): (r: seq<Group<K>>)
    requires DistinctKeys(gs)
    ensures DistinctKeys(r)
    ensures GroupKeys(r) == GroupKeys(gs) + {k}
    decreases |gs|
  {
    if |gs| == 0 then
      GroupKeysCons(Group(k, v), gs);
      assert [Group(k, v)] + gs == [Group(k, v)];
      [Group(k, v)]
    else if gs[0].key == k then
      GroupKeysCons(gs[0], gs[1..]);
      GroupKeysCons(Group(k, gs[0].total + v), gs[1..]);
      assert gs == [gs[0]] + gs[1..];
      [Group(k, gs[0].total + v)] + gs[1..]
    else
      var rest := Add(gs[1..], k, v);
      GroupKeysCons(gs[0], rest);
      GroupKeysCons(gs[0], gs[1..]);
      assert gs == [gs[0]] + gs[1..];
      assert gs[0].key !in GroupKeys(gs[1..]);
      assert forall j :: 0 <= j < |rest| ==> rest[j].key in GroupKeys(rest);
      [gs[0]] + rest
  }

  /** Adding to group `k` raises the total of `k` by `v` and of no other key. */
  lemma {:induction false} AddLookup<K(!new)>(gs: seq<Group<K>>, k: K, v: real, k': K)
    requires DistinctKeys(gs)
    ensures Lookup(Add(gs, k, v), k') == Lookup(gs, k') + (if k' == k then v else 0.0)
    decreases |gs|
  {
    if |gs| > 0 {
      if gs[0].key == k {
        if k' != k {
          assert ([Group(k, gs[0].total + v)] + gs[1..])[1..] == gs[1..];
        }
      } else {
        AddLookup(gs[1..], k, v, k');
        assert ([gs[0]] + Add(gs[1..], k, v))[1..] == Add(gs[1..], k, v);
      }
    }
  }

  /** Adding `v` to one group raises the grand total by `v`. */
  lemma {:induction false} AddSumTotals<K(!new)>(gs: seq<Group<K>>, k: K, v: real)
    requires DistinctKeys(gs)
    ensures SumTotals(Add(gs, k, v)) == SumTotals(gs) + v
    decreases |gs|
  {
    if |gs| > 0 {
      if gs[0].key == k {
        assert ([Group(k, gs[0].total + v)] + gs[1..])[1..] == gs[1..];
      } else {
        AddSumTotals(gs[1..], k, v);
        assert ([gs[0]] + Add(gs[1..], k, v))[1..] == Add(gs[1..], k, v);
      }
    }
  }

  /** A key that no group carries looks up to 0. */
  lemma {:induction false} LookupAbsent<K(!new)>(gs: seq<Group<K>>, k: K)
    requires forall j :: 0 <= j < |gs| ==> gs[j].key != k
    ensures Lookup(gs, k) == 0.0
    decreases |gs|
  {
    if |gs| > 0 {
      LookupAbsent(gs[1..], k);
    }
  }

  /** With distinct keys, each group's total is what its key looks up to. */
  lemma {:induction false} LookupOwnKey<K(!new)>(gs: seq<Group<K>>, i: nat)
    requires DistinctKeys(gs) && i < |gs|
    ensures Lookup(gs, gs[i].key) == gs[i].total
    decreases i
  {
    if i > 0 {
      LookupOwnKey(gs[1..], i - 1);
    }
  }

  /** `groupby(key)[value].sum()`: one group per distinct non-missing key, in
      first-seen order, each holding the sum of the present values of its
      rows. Entries with a missing key are skipped; an entry with a missing
      value still opens its group (pandas sums an all-NaN group to 0). */
  function GroupSum<K(==,!new)>(es: seq<Entry<K>>): (r: seq<Group<K>>)
    ensures DistinctKeys(r)
    ensures GroupKeys(r) == PresentKeys(es)
    ensures forall k :: Lookup(r, k) == KeySum(es, k)
    ensures |r| <= |es|
    decreases |es|
  {
    if |es| == 0 then []
    else
      var init := es[..|es| - 1];
      var e := es[|es| - 1];
      var gs := GroupSum(init);
      PresentKeysSnoc(es);
      if e.key.None? then gs
      else
        var r := Add(gs, e.key.value, OrZero(e.value));
        AddLookupAll(gs, e.key.value, OrZero(e.value));
        AddCount(gs, r, e.key.value);
        r
  }

  /** The keys of the entries grow by the last entry's key, if it has one. */
  lemma PresentKeysSnoc<K>(es: seq<Entry<K>>)
    requires |es| > 0
    ensures var e := es[|es| - 1];
            PresentKeys(es) == PresentKeys(es[..|es| - 1]) + (if e.key.Some? then {e.key.value} else {})
  {
    var init := es[..|es| - 1];
    assert forall i :: 0 <= i < |init| ==> es[i] == init[i];
  }

  /** `AddLookup` for every key at once. */
  lemma AddLookupAll<K(!new)>(gs: seq<Group<K>>, k: K, v: real)
    requires DistinctKeys(gs)
    ensures forall k' :: Lookup(Add(gs, k, v), k') == Lookup(gs, k') + (if k' == k then v else 0.0)
  {
    forall k'
      ensures Lookup(Add(gs, k, v), k') == Lookup(gs, k') + (if k' == k then v else 0.0)
    {
      AddLookup(gs, k, v, k');
    }
  }

  /** Adding to a group makes the list at most one longer. */
  lemma AddCount<K(!new)>(gs: seq<Group<K>>, r: seq<Group<K>>, k: K)
    requires DistinctKeys(gs) && DistinctKeys(r)
    requires GroupKeys(r) == GroupKeys(gs) + {k}
    ensures |r| <= |gs| + 1
  {
    DistinctCount(r);
    DistinctCount(gs);
    assert |GroupKeys(gs) + {k}| <= |GroupKeys(gs)| + 1;
  }

  /** Distinct keys: as many groups as keys. */
  lemma {:induction false} DistinctCount<K(!new)>(gs: seq<Group<K>>)
    requires DistinctKeys(gs)
    ensures |GroupKeys(gs)| == |gs|
    decreases |gs|
  {
    if |gs| > 0 {
      var tail := gs[1..];
      DistinctCount(tail);
      assert GroupKeys(gs) == {gs[0].key} + GroupKeys(tail) by {
        assert forall i :: 0 < i < |gs| ==> gs[i] == tail[i - 1];
        assert forall i :: 0 <= i < |tail| ==> tail[i] == gs[i + 1];
      }
      assert gs[0].key !in GroupKeys(tail);
    }
  }

  /** Each group of the result holds the reference sum of its key. */
  lemma GroupSumTotals<K(!new)>(es: seq<Entry<K>>)
    ensures forall g :: g in GroupSum(es) ==> g.key in PresentKeys(es) && g.total == KeySum(es, g.key)
  {
    var r := GroupSum(es);
    forall g | g in r
      ensures g.key in PresentKeys(es) && g.total == KeySum(es, g.key)
    {
      var i :| 0 <= i < |r| && r[i] == g;
      LookupOwnKey(r, i);
      assert g.key in GroupKeys(r);
    }
  }

  /** The values of the entries, and those of the entries without a key. */
  function Values<K>(es: seq<Entry<K>>): seq<Option<real>>
  {
    MapSeq(es, (e: Entry<K>) => e.value)
  }

  function UnkeyedValues<K>(es: seq<Entry<K>>): seq<Option<real>>
  {
    MapSeq(es, (e: Entry<K>) => if e.key.None? then e.value else None)
  }

  /** Nothing is lost or counted twice: the group totals plus the values of
      rows without a key add up to the sum of all present values. */
  lemma {:induction false} GroupSumConserves<K(!new)>(es: seq<Entry<K>>)
    ensures SumTotals(GroupSum(es)) + SumPresent(UnkeyedValues(es)) == SumPresent(Values(es))
    decreases |es|
  {
    if |es| > 0 {
      var init := es[..|es| - 1];
      GroupSumConserves(init);
      var e := es[|es| - 1];
      if e.key.Some? {
        AddSumTotals(GroupSum(init), e.key.value, OrZero(e.value));
      }
      assert Values(es)[..|es| - 1] == Values(init);
      assert UnkeyedValues(es)[..|es| - 1] == UnkeyedValues(init);
    }
  }

  /** Exclusion law of the chart aggregations: an entry with a missing key
      or a missing value changes no group. */
  lemma ExcludesIncomplete<K(!new)>(es: seq<Entry<K>>, e: Entry<K>)
    requires e.key.None? || e.value.None?
    ensures GroupSum(DropIncomplete(es + [e])) == GroupSum(DropIncomplete(es))
  {
    KeepSnoc(es, e, Complete);
    assert !Complete(e);
    assert Keep(es + [e], Complete) == Keep(es, Complete);
  }

  /** Exclusion law of a plain `groupby().sum()`: an entry with a missing key
      changes nothing, and one with a missing value changes no total. */
  lemma ExcludesMissing<K(!new)>(es: seq<Entry<K>>, e: Entry<K>)
    ensures e.key.None? ==> GroupSum(es + [e]) == GroupSum(es)
    ensures forall k :: Lookup(GroupSum(es + [e]), k) == Lookup(GroupSum(es), k) + (if e.key == Some(k) then OrZero(e.value) else 0.0)
  {
    assert (es + [e])[..|es|] == es;
  }

  /** Non-increasing totals. */
  predicate SortedDesc<K>(gs: seq<Group<K>>)
  {
    forall i, j :: 0 <= i < j < |gs| ==> gs[i].total >= gs[j].total
  }

  /** Inserts `g` into a descending list, before the first group whose total
      does not exceed its own. */
  function Insert<K(==,!new)>(g: Group<K>, s: seq<Group<K>>): (r: seq<Group<K>>)
    requires SortedDesc(s)
    ensures SortedDesc(r)
    ensures multiset(r) == multiset(s) + multiset{g}
    ensures |r| == |s| + 1
    decreases |s|
  {
    if |s| == 0 then [g]
    else if g.total >= s[0].total then [g] + s
    else
      var rest := Insert(g, s[1..]);
      assert s == [s[0]] + s[1..];
      HeadBounds(g, s, rest);
      SortedCons(s[0], rest);
      [s[0]] + rest
  }

  /** Nothing inserted behind the head of a descending list exceeds it. */
  lemma HeadBounds<K>(g: Group<K>, s: seq<Group<K>>, rest: seq<Group<K>>)
    requires SortedDesc(s) && |s| > 0 && g.total < s[0].total
    requires multiset(rest) == multiset(s[1..]) + multiset{g}
    ensures forall x :: x in rest ==> x.total <= s[0].total
  {
    forall x | x in rest
      ensures x.total <= s[0].total
    {
      assert x in multiset(rest);
      if x != g {
        assert x in multiset(s[1..]);
        var j :| 0 <= j < |s[1..]| && s[1..][j] == x;
        assert s[j + 1] == x;
      }
    }
  }

  /** A head no smaller than anything behind it keeps a list descending. */
  lemma SortedCons<K>(h: Group<K>, rest: seq<Group<K>>)
    requires SortedDesc(rest)
    requires forall x :: x in rest ==> x.total <= h.total
    ensures SortedDesc([h] + rest)
  {
    var r := [h] + rest;
    forall i, j | 0 <= i < j < |r|
      ensures r[i].total >= r[j].total
    {
      if i == 0 {
        assert r[j] in rest;
      } else {
        assert r[i] == rest[i - 1] && r[j] == rest[j - 1];
      }
    }
  }

  /** `sort_values(ascending=False)`: the same groups, totals non-increasing. */
  function SortDesc<K(==,!new)>(gs: seq<Group<K>>): (r: seq<Group<K>>)
    ensures SortedDesc(r)
    ensures multiset(r) == multiset(gs)
    ensures |r| == |gs|
    decreases |gs|
  {
    if |gs| == 0 then []
    else
      assert gs == [gs[0]] + gs[1..];
      Insert(gs[0], SortDesc(gs[1..]))
  }

  /** In a descending list, nothing after position `m` exceeds anything before it. */
  lemma SortedSplit<K>(s: seq<Group<K>>, m: nat)
    requires SortedDesc(s) && m <= |s|
    ensures forall x, y :: x in s[..m] && y in s[m..] ==> y.total <= x.total
  {
    forall x, y | x in s[..m] && y in s[m..]
      ensures y.total <= x.total
    {
      var i :| 0 <= i < m && s[..m][i] == x;
      var j :| 0 <= j < |s| - m && s[m..][j] == y;
      assert s[i] == x && s[m + j] == y;
    }
  }

  /** A prefix of a descending arrangement of `gs` is drawn from `gs`, and
      what it leaves out is no larger than anything in it. */
  lemma PrefixIsTop<K>(s: seq<Group<K>>, gs: seq<Group<K>>, m: nat)
    requires SortedDesc(s) && multiset(s) == multiset(gs) && m <= |s|
    ensures multiset(s[..m]) <= multiset(gs)
    ensures forall x, y :: x in s[..m] && y in multiset(gs) - multiset(s[..m]) ==> y.total <= x.total
  {
    SortedSplit(s, m);
    assert s == s[..m] + s[m..];
    assert multiset(gs) - multiset(s[..m]) == multiset(s[m..]);
  }

  /** `nlargest(n)` / `sort_values(ascending=False).head(n)`: at most `n`
      groups, taken from the input, totals non-increasing, and no group left
      out has a larger total than one kept. */
  function TopN<K(==,!new)>(gs: seq<Group<K>>, n: nat): (r: seq<Group<K>>)
    ensures |r| == if |gs| < n then |gs| else n
    ensures SortedDesc(r)
    ensures multiset(r) <= multiset(gs)
    ensures forall x, y :: x in r && y in multiset(gs) - multiset(r) ==> y.total <= x.total
  {
    var s := SortDesc(gs);
    var m := if |gs| < n then |gs| else n;
    PrefixIsTop(s, gs, m);
    s[..m]
  }
}
