/**
 * The rooms chart: the truthy `Zimmer` values counted per value, one bar per value labelled
 * `"<n> Rooms"` and sorted by the room number read back from the label, and the average number of
 * rooms.
 */
module RoomAnalytics {
  import opened Seqs
  import opened Strings
  import opened JsValues
  import opened FilterRules
  import opened DataUtils

  /** `data.map(d => d.Zimmer).filter(Boolean)`, each value as the dictionary key `String(rooms)`. */
  function RoomKeys(data: seq<Property>): seq<string>
  {
    if data == [] then []
    else (if Truthy(data[0].rooms) then [ToText(data[0].rooms)] else []) + RoomKeys(data[1..])
  }

  /** The number of items with a truthy `Zimmer`. */
  function RoomedCount(data: seq<Property>): nat
  {
    if data == [] then 0 else (if Truthy(data[0].rooms) then 1 else 0) + RoomedCount(data[1..])
  }

  /** Every key comes from an item with truthy rooms, and there is one key per such item. */
  lemma {:induction false} RoomKeysSpec(data: seq<Property>)
    ensures |RoomKeys(data)| == RoomedCount(data) <= |data|
    ensures forall k :: k in RoomKeys(data) <==> exists i :: 0 <= i < |data| && Truthy(data[i].rooms) && ToText(data[i].rooms) == k
  {
    if data != [] {
      RoomKeysSpec(data[1..]);
      forall k
        ensures k in RoomKeys(data) <==> exists i :: 0 <= i < |data| && Truthy(data[i].rooms) && ToText(data[i].rooms) == k
      {
        if exists i :: 0 <= i < |data| && Truthy(data[i].rooms) && ToText(data[i].rooms) == k {
          var i :| 0 <= i < |data| && Truthy(data[i].rooms) && ToText(data[i].rooms) == k;
          if i > 0 {
            assert data[1..][i - 1] == data[i];
          }
        }
        if k in RoomKeys(data[1..]) {
          var i :| 0 <= i < |data[1..]| && Truthy(data[1..][i].rooms) && ToText(data[1..][i].rooms) == k;
          assert data[i + 1] == data[1..][i];
        }
      }
    }
  }

  /** `roomCounts`: the reduce over the keys into an accumulator dictionary. */
  method RoomCounts(data: seq<Property>) returns (counts: map<string, nat>)
    ensures counts == Tally(RoomKeys(data))
    ensures forall k :: k in counts <==> k in RoomKeys(data)
    ensures forall k :: k in counts ==> counts[k] == Count(RoomKeys(data), k) >= 1
  {
    counts := CountKeys(RoomKeys(data));
    TallyCounts(RoomKeys(data));
  }

  /** One bar of the chart. */
  datatype Entry = Entry(rooms: string, count: nat)

  const RoomsSuffix: string := " Rooms"

  /**
   * The bars in the order the keys were first counted, each labelled by its key. `Object.entries`
   * lists integer-like keys ("1", "2") in ascending order before the other keys; after the stable
   * sort the two differ only in the order of bars whose sort keys tie or are NaN.
   */
  function Entries(keys: seq<string>, counts: map<string, nat>): (r: seq<Entry>)
    ensures |r| == |keys|
  {
    if keys == [] then []
    else [Entry(keys[0] + RoomsSuffix, if keys[0] in counts then counts[keys[0]] else 0)] + Entries(keys[1..], counts)
  }

  /** The comparator's key: `Number(label.split(' ')[0])`. */
  function SortKey(e: Entry): JsNum
  {
    StringToNumber(Before(e.rooms, ' '))
  }

  /** The comparator's ordering: no later bar's key is below an earlier one's. */
  predicate SortedBy(s: seq<Entry>, key: Entry -> JsNum)
  {
    forall i, j :: 0 <= i < j < |s| ==> Le(key(s[i]), key(s[j]))
  }

  predicate KeysNoNaN(s: seq<Entry>, key: Entry -> JsNum)
  {
    forall i :: 0 <= i < |s| ==> key(s[i]) != NaN
  }

  /**
   * Places `e`, which came earlier than every entry of `s`, before the first entry whose key is not
   * below its own, so that equal keys keep their order as in a stable sort.
   */
  function Insert(e: Entry, s: seq<Entry>, key: Entry -> JsNum): (r: seq<Entry>)
    ensures multiset(r) == multiset(s) + multiset{e}
  {
    if s == [] then [e]
    else if !Lt(key(s[0]), key(e)) then [e] + s
    else
      assert s == [s[0]] + s[1..];
      [s[0]] + Insert(e, s[1..], key)
  }

  /** `sort` by the comparator's key, as a stable insertion sort. */
  function SortEntries(s: seq<Entry>, key: Entry -> JsNum): (r: seq<Entry>)
    ensures multiset(r) == multiset(s)
  {
    if s == [] then []
    else
      assert s == [s[0]] + s[1..];
      Insert(s[0], SortEntries(s[1..], key), key)
  }

  lemma LeTransitive(a: JsNum, b: JsNum, c: JsNum)
    requires Le(a, b) && Le(b, c)
    ensures Le(a, c)
  {
  }

  lemma {:induction false} InsertSorted(e: Entry, s: seq<Entry>, key: Entry -> JsNum)
    requires SortedBy(s, key) && KeysNoNaN(s, key) && key(e) != NaN
    ensures SortedBy(Insert(e, s, key), key) && KeysNoNaN(Insert(e, s, key), key)
  {
    if s != [] {
      if !Lt(key(s[0]), key(e)) {
        forall k | 0 <= k < |s|
          ensures Le(key(e), key(s[k]))
        {
          if k > 0 {
            LeTransitive(key(e), key(s[0]), key(s[k]));
          }
        }
        ConsSorted(e, s, key);
      } else {
        InsertSorted(e, s[1..], key);
        var t := Insert(e, s[1..], key);
        forall k | 0 <= k < |t|
          ensures Le(key(s[0]), key(t[k]))
        {
          assert t[k] in multiset(t);
          assert t[k] == e || t[k] in s[1..];
          LtLe(key(s[0]), key(e));
        }
        ConsSorted(s[0], t, key);
      }
    }
  }

  /** A strictly smaller key is also at most the other. */
  lemma LtLe(a: JsNum, b: JsNum)
    requires Lt(a, b)
    ensures Le(a, b)
  {
  }

  /** A bar whose key is at most every key of a sorted sequence may go in front of it. */
  lemma ConsSorted(x: Entry, t: seq<Entry>, key: Entry -> JsNum)
    requires SortedBy(t, key) && KeysNoNaN(t, key) && key(x) != NaN
    requires forall k :: 0 <= k < |t| ==> Le(key(x), key(t[k]))
    ensures SortedBy([x] + t, key) && KeysNoNaN([x] + t, key)
  {
    var r := [x] + t;
    forall i, j | 0 <= i < j < |r|
      ensures Le(key(r[i]), key(r[j]))
    {
      assert r[j] == t[j - 1];
      if i > 0 {
        assert r[i] == t[i - 1];
      }
    }
    forall i | 0 <= i < |r|
      ensures key(r[i]) != NaN
    {
      if i > 0 {
        assert r[i] == t[i - 1];
      }
    }
  }

  /** Without NaN keys the sorted bars ascend by their key. */
  lemma {:induction false} SortEntriesSorted(s: seq<Entry>, key: Entry -> JsNum)
    requires KeysNoNaN(s, key)
    ensures SortedBy(SortEntries(s, key), key)
    ensures KeysNoNaN(SortEntries(s, key), key)
  {
    if s != [] {
      SortEntriesSorted(s[1..], key);
      InsertSorted(s[0], SortEntries(s[1..], key), key);
    }
  }

  /** `roomDistribution`: the bars of the counted keys, sorted by room number. */
  function RoomDistribution(data: seq<Property>): seq<Entry>
  {
    var keys := RoomKeys(data);
    SortEntries(Entries(Dedupe(keys), Tally(keys)), SortKey)
  }

  function CountSum(s: seq<Entry>): nat
  {
    if s == [] then 0 else s[0].count + CountSum(s[1..])
  }

  lemma {:induction false} CountSumInsert(e: Entry, s: seq<Entry>, key: Entry -> JsNum)
    ensures CountSum(Insert(e, s, key)) == e.count + CountSum(s)
  {
    if s != [] && Lt(key(s[0]), key(e)) {
      CountSumInsert(e, s[1..], key);
    }
  }

  /** Sorting keeps the total of the counts. */
  lemma {:induction false} CountSumSorted(s: seq<Entry>, key: Entry -> JsNum)
    ensures CountSum(SortEntries(s, key)) == CountSum(s)
  {
    if s != [] {
      CountSumSorted(s[1..], key);
      CountSumInsert(s[0], SortEntries(s[1..], key), key);
    }
  }

  /** The bars' total is the dictionary's total over the same keys. */
  lemma {:induction false} CountSumEntries(keys: seq<string>, counts: map<string, nat>)
    requires forall i :: 0 <= i < |keys| ==> keys[i] in counts
    ensures CountSum(Entries(keys, counts)) == SumCounts(counts, keys)
  {
    if keys != [] {
      CountSumEntries(keys[1..], counts);
    }
  }

  /** What each bar of the unsorted list says: a key's label and its count. */
  lemma {:induction false} EntriesAt(keys: seq<string>, counts: map<string, nat>, i: nat)
    requires i < |keys|
    ensures Entries(keys, counts)[i] == Entry(keys[i] + RoomsSuffix, if keys[i] in counts then counts[keys[i]] else 0)
  {
    if i > 0 {
      EntriesAt(keys[1..], counts, i - 1);
    }
  }

  /** Different keys get different labels. */
  lemma LabelsDistinct(a: string, b: string)
    requires a + RoomsSuffix == b + RoomsSuffix
    ensures a == b
  {
    assert a == (a + RoomsSuffix)[..|a|];
    assert b == (b + RoomsSuffix)[..|b|];
  }

  /**
   * The distribution has one bar per distinct truthy room value, labelled `"<value> Rooms"` and
   * counting that value's items, so every count is at least 1 and the counts add up to the number
   * of items with truthy rooms. Without NaN keys the bars ascend by room number.
   */
  lemma RoomDistributionSpec(data: seq<Property>)
    ensures var keys := RoomKeys(data); var d := RoomDistribution(data);
            |d| == |Dedupe(keys)|
            && (forall k :: k in keys ==> Entry(k + RoomsSuffix, Count(keys, k)) in d)
            && (forall e :: e in d ==> e.count >= 1 && exists k :: k in keys && e == Entry(k + RoomsSuffix, Count(keys, k)))
    ensures CountSum(RoomDistribution(data)) == RoomedCount(data)
    ensures KeysNoNaN(RoomDistribution(data), SortKey) ==> SortedBy(RoomDistribution(data), SortKey)
  {
    var keys := RoomKeys(data);
    DistributionBars(keys, RoomDistribution(data));
    DistributionTotal(data);
    DistributionSorted(data);
  }

  /** Any reordering of the bars of the counted keys has one bar per distinct key, with its count. */
  lemma DistributionBars(keys: seq<string>, d: seq<Entry>)
    requires multiset(d) == multiset(Entries(Dedupe(keys), Tally(keys)))
    ensures |d| == |Dedupe(keys)|
    ensures forall k :: k in keys ==> Entry(k + RoomsSuffix, Count(keys, k)) in d
    ensures forall e :: e in d ==> e.count >= 1 && exists k :: k in keys && e == Entry(k + RoomsSuffix, Count(keys, k))
  {
    assert |d| == |Entries(Dedupe(keys), Tally(keys))| by {
      assert |multiset(d)| == |multiset(Entries(Dedupe(keys), Tally(keys)))|;
    }
    forall k | k in keys
      ensures Entry(k + RoomsSuffix, Count(keys, k)) in d
    {
      KeyHasBar(keys, d, k);
    }
    forall e | e in d
      ensures e.count >= 1 && exists k :: k in keys && e == Entry(k + RoomsSuffix, Count(keys, k))
    {
      BarHasKey(keys, d, e);
    }
  }

  lemma KeyHasBar(keys: seq<string>, d: seq<Entry>, k: string)
    requires multiset(d) == multiset(Entries(Dedupe(keys), Tally(keys)))
    requires k in keys
    ensures Entry(k + RoomsSuffix, Count(keys, k)) in d
  {
    var ks := Dedupe(keys);
    DedupeElements(keys);
    TallyCounts(keys);
    var i :| 0 <= i < |ks| && ks[i] == k;
    EntriesAt(ks, Tally(keys), i);
    assert Entries(ks, Tally(keys))[i] in multiset(d);
  }

  lemma BarHasKey(keys: seq<string>, d: seq<Entry>, e: Entry)
    requires multiset(d) == multiset(Entries(Dedupe(keys), Tally(keys)))
    requires e in d
    ensures e.count >= 1 && exists k :: k in keys && e == Entry(k + RoomsSuffix, Count(keys, k))
  {
    var ks := Dedupe(keys);
    var entries := Entries(ks, Tally(keys));
    DedupeElements(keys);
    TallyCounts(keys);
    assert e in multiset(entries);
    var i :| 0 <= i < |entries| && entries[i] == e;
    EntriesAt(ks, Tally(keys), i);
    assert ks[i] in keys;
  }

  /** The bars' counts add up to the number of items with truthy rooms. */
  lemma DistributionTotal(data: seq<Property>)
    ensures CountSum(RoomDistribution(data)) == RoomedCount(data)
  {
    var keys := RoomKeys(data);
    var entries := Entries(Dedupe(keys), Tally(keys));
    TallyTotal(keys);
    CountSumSorted(entries, SortKey);
    CountSumEntries(Dedupe(keys), Tally(keys));
    RoomKeysSpec(data);
  }

  /** Without NaN room numbers the bars ascend by room number. */
  lemma DistributionSorted(data: seq<Property>)
    ensures KeysNoNaN(RoomDistribution(data), SortKey) ==> SortedBy(RoomDistribution(data), SortKey)
  {
    var keys := RoomKeys(data);
    var entries := Entries(Dedupe(keys), Tally(keys));
    var d := RoomDistribution(data);
    if KeysNoNaN(d, SortKey) {
      forall i | 0 <= i < |entries|
        ensures SortKey(entries[i]) != NaN
      {
        assert entries[i] in multiset(d);
      }
      SortEntriesSorted(entries, SortKey);
    }
  }

  /** `data.reduce((acc, d) => acc + (d.Zimmer || 0), 0)`: the rooms added from the left, a falsy value as 0. */
  function RoomSum(data: seq<Property>): JsNum
  {
    if data == [] then Fin(0.0) else Add(RoomSum(data[..|data| - 1]), ToNumber(OrZero(data[|data| - 1].rooms)))
  }

  /** `avgRooms`: the sum divided by the number of all items, with or without rooms. */
  function AvgRooms(data: seq<Property>): JsNum
  {
    Div(RoomSum(data), Fin(|data| as real))
  }

  /**
   * Without data the average is NaN (0 / 0). An item without rooms adds nothing to the sum but
   * still counts in the divisor.
   */
  lemma AvgRoomsSpec(data: seq<Property>, extra: Property)
    ensures AvgRooms([]) == NaN
    ensures !Truthy(extra.rooms) ==> RoomSum(data + [extra]) == RoomSum(data)
    ensures !Truthy(extra.rooms) && RoomSum(data).Fin? ==>
              AvgRooms(data + [extra]) == Fin(RoomSum(data).r / (|data| as real + 1.0))
  {
    assert (data + [extra])[..|data|] == data;
  }
}
