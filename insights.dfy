/** The insights panel (src/components/RepoInsights.jsx): `getExtension` and
    the body of the `insights` memo. The two dictionaries that the memo
    increments in a `forEach` are built by loop methods; the sorting,
    truncation and rotation steps are functions, as in the source. The clock
    is a parameter: each week carries the calendar month of its start, and
    `currentMonth` is the month of today. */
module RepoInsights {
  import opened Wrappers
  import opened Strings
  import opened Repo
  import opened Dashboard
  import opened Seqs

  // ---------------------------------------------------------------- getExtension

  /** `getExtension(path)`: a dot and the text after the last `.` of the
      whole path, or `"none"` for a path without one. */
  function GetExtension(path: string): (ext: string)
    ensures ext == "none" || (|ext| > 0 && ext[0] == '.')
    ensures '.' !in path ==> ext == "none"
  {
    var parts := Split(path, '.');
    if |parts| > 1 then "." + parts[|parts| - 1] else "none"
  }

  /** A path with a dot has as extension the text after its last dot. */
  lemma ExtensionAfterLastDot(front: string, back: string)
    requires '.' !in back
    ensures GetExtension(front + ['.'] + back) == "." + back
  {
    SplitConcat(front, back, '.');
  }

  /** The last dot of the whole path counts, even one in a directory name. */
  lemma ExtensionOfDottedDirectory()
    ensures GetExtension("v1.2/Makefile") == ".2/Makefile"
  {
    assert "v1.2/Makefile" == "v1" + ['.'] + "2/Makefile";
    ExtensionAfterLastDot("v1", "2/Makefile");
  }

  /** A trailing dot gives the bare dot. */
  lemma ExtensionOfTrailingDot(front: string)
    ensures GetExtension(front + ".") == "."
  {
    assert front + "." == front + ['.'] + "";
    ExtensionAfterLastDot(front, "");
  }

  // ---------------------------------------------------------------- stable sort

  /** Non-increasing by `key`. */
  predicate SortedDesc<T>(s: seq<T>, key: T -> int)
  {
    forall i, j :: 0 <= i < j < |s| ==> key(s[i]) >= key(s[j])
  }

  /** Puts `x` into a sequence sorted by `key`, after every element whose key
      is not smaller. */
  function InsertDesc<T>(x: T, s: seq<T>, key: T -> int): seq<T>
    decreases |s|
  {
    if s == [] || key(x) > key(s[0]) then [x] + s
    else [s[0]] + InsertDesc(x, s[1..], key)
  }

  /** `sort((a, b) => key(b) - key(a))`: `Array.prototype.sort` is stable, so
      this is the stable sort by descending key, written as an insertion
      sort. */
  function SortDesc<T>(s: seq<T>, key: T -> int): seq<T>
    decreases |s|
  {
    if s == [] then [] else InsertDesc(s[|s| - 1], SortDesc(s[..|s| - 1], key), key)
  }

  lemma {:induction false} InsertDescPermutation<T>(x: T, s: seq<T>, key: T -> int)
    ensures multiset(InsertDesc(x, s, key)) == multiset(s) + multiset{x}
    decreases |s|
  {
    if s != [] && key(x) <= key(s[0]) {
      InsertDescPermutation(x, s[1..], key);
      assert s == [s[0]] + s[1..];
    }
  }

  lemma {:induction false} InsertDescSorted<T>(x: T, s: seq<T>, key: T -> int)
    requires SortedDesc(s, key)
    ensures SortedDesc(InsertDesc(x, s, key), key)
    decreases |s|
  {
    if s != [] && key(x) <= key(s[0]) {
      var rest := InsertDesc(x, s[1..], key);
      InsertDescSorted(x, s[1..], key);
      InsertDescPermutation(x, s[1..], key);
      forall j | 0 <= j < |rest| ensures key(s[0]) >= key(rest[j]) {
        assert rest[j] in multiset(rest);
      }
      SortedCons(s[0], rest, key);
    }
  }

  lemma SortedCons<T>(x: T, s: seq<T>, key: T -> int)
    requires SortedDesc(s, key)
    requires forall j :: 0 <= j < |s| ==> key(x) >= key(s[j])
    ensures SortedDesc([x] + s, key)
  {
    forall i, j | 0 <= i < j < |[x] + s| ensures key(([x] + s)[i]) >= key(([x] + s)[j]) {
      if i > 0 {
        assert ([x] + s)[i] == s[i - 1];
      }
      assert ([x] + s)[j] == s[j - 1];
    }
  }

  /** The sort orders by descending key and keeps every element as often as
      it occurs. */
  lemma {:induction false} SortDescSorted<T>(s: seq<T>, key: T -> int)
    ensures SortedDesc(SortDesc(s, key), key)
    ensures multiset(SortDesc(s, key)) == multiset(s)
    decreases |s|
  {
    if s != [] {
      SortDescSorted(s[..|s| - 1], key);
      InsertDescSorted(s[|s| - 1], SortDesc(s[..|s| - 1], key), key);
      InsertDescPermutation(s[|s| - 1], SortDesc(s[..|s| - 1], key), key);
      assert s == s[..|s| - 1] + [s[|s| - 1]];
    }
  }

  /** The elements whose key is `v`, in order. */
  function WithKey<T>(s: seq<T>, key: T -> int, v: int): seq<T>
    decreases |s|
  {
    if s == [] then [] else (if key(s[0]) == v then [s[0]] else []) + WithKey(s[1..], key, v)
  }

  lemma {:induction false} WithKeyConcat<T>(a: seq<T>, b: seq<T>, key: T -> int, v: int)
    ensures WithKey(a + b, key, v) == WithKey(a, key, v) + WithKey(b, key, v)
    decreases |a|
  {
    if a == [] {
      assert a + b == b;
    } else {
      var head := if key(a[0]) == v then [a[0]] else [];
      assert (a + b)[0] == a[0];
      assert (a + b)[1..] == a[1..] + b;
      assert WithKey(a + b, key, v) == head + WithKey(a[1..] + b, key, v);
      assert WithKey(a, key, v) == head + WithKey(a[1..], key, v);
      WithKeyConcat(a[1..], b, key, v);
    }
  }

  lemma {:induction false} WithKeyAbsent<T>(s: seq<T>, key: T -> int, v: int)
    requires forall i :: 0 <= i < |s| ==> key(s[i]) < v
    ensures WithKey(s, key, v) == []
    decreases |s|
  {
    if s != [] {
      WithKeyAbsent(s[1..], key, v);
    }
  }

  lemma {:induction false} InsertDescStable<T>(x: T, s: seq<T>, key: T -> int, v: int)
    requires SortedDesc(s, key)
    ensures WithKey(InsertDesc(x, s, key), key, v) == WithKey(s, key, v) + (if key(x) == v then [x] else [])
    decreases |s|
  {
    if s == [] || key(x) > key(s[0]) {
      assert ([x] + s)[1..] == s;
      if key(x) == v {
        WithKeyAbsent(s, key, v);
      }
    } else {
      InsertDescStable(x, s[1..], key, v);
      assert ([s[0]] + InsertDesc(x, s[1..], key))[1..] == InsertDesc(x, s[1..], key);
    }
  }

  /** Stability: elements with equal keys keep their relative order. */
  lemma {:induction false} SortDescStable<T>(s: seq<T>, key: T -> int, v: int)
    ensures WithKey(SortDesc(s, key), key, v) == WithKey(s, key, v)
    decreases |s|
  {
    if s != [] {
      var init, last := s[..|s| - 1], s[|s| - 1];
      var sorted := SortDesc(init, key);
      var tail := if key(last) == v then [last] else [];
      assert WithKey([last], key, v) == tail;
      assert s == init + [last];
      calc {
        WithKey(SortDesc(s, key), key, v);
        WithKey(InsertDesc(last, sorted, key), key, v);
        { SortDescSorted(init, key); InsertDescStable(last, sorted, key, v); }
        WithKey(sorted, key, v) + tail;
        { SortDescStable(init, key, v); }
        WithKey(init, key, v) + tail;
        { WithKeyConcat(init, [last], key, v); }
        WithKey(s, key, v);
      }
    }
  }

  /** Keeping the first `n` of the sorted sequence keeps a largest `n`: the
      kept elements come from the input, in descending order, and every
      element left out has a key no larger than any kept one. */
  lemma TopByKey<T>(s: seq<T>, key: T -> int, n: nat)
    ensures forall i :: 0 <= i < |Take(SortDesc(s, key), n)| ==> Take(SortDesc(s, key), n)[i] in s
    ensures SortedDesc(Take(SortDesc(s, key), n), key)
    ensures |Take(SortDesc(s, key), n)| == if |s| < n then |s| else n
    ensures forall x, i ::
      (x in s && x !in Take(SortDesc(s, key), n) && 0 <= i < |Take(SortDesc(s, key), n)|)
      ==> key(x) <= key(Take(SortDesc(s, key), n)[i])
  {
    var t := SortDesc(s, key);
    var r := Take(t, n);
    SortDescSorted(s, key);
    assert |t| == |multiset(t)| == |s|;
    forall i | 0 <= i < |r| ensures r[i] in s {
      assert r[i] == t[i];
      assert r[i] in multiset(t);
    }
    forall x, i | x in s && x !in r && 0 <= i < |r|
      ensures key(x) <= key(r[i])
    {
      assert x in multiset(t);
      var m :| 0 <= m < |t| && t[m] == x;
      if m < |r| {
        assert false;
      }
      assert r[i] == t[i];
    }
  }

  // ---------------------------------------------------------------- counting dictionaries

  /** A plain object used as a counting dictionary: its keys in the order
      they were first assigned, and the count under each. */
  datatype Counter = Counter(order: seq<string>, counts: map<string, nat>)

  /** `dict[k] = (dict[k] || 0) + 1`. */
  function Bump(c: Counter, k: string): Counter
  {
    if k in c.counts then Counter(c.order, c.counts[k := c.counts[k] + 1])
    else Counter(c.order + [k], c.counts[k := 1])
  }

  /** The dictionary after counting `keys` one by one from `{}`. */
  function TallyOf(keys: seq<string>): Counter
    decreases |keys|
  {
    if keys == [] then Counter([], map[]) else Bump(TallyOf(keys[..|keys| - 1]), keys[|keys| - 1])
  }

  predicate Distinct<T(==)>(s: seq<T>)
  {
    forall i, j :: 0 <= i < j < |s| ==> s[i] != s[j]
  }

  /** Each key seen is in the dictionary exactly once, under the number of
      times it was seen. */
  lemma {:induction false} TallyCounts(keys: seq<string>)
    ensures forall k :: k in TallyOf(keys).counts <==> k in keys
    ensures forall k :: k in TallyOf(keys).order <==> k in keys
    ensures Distinct(TallyOf(keys).order)
    ensures forall k :: k in TallyOf(keys).counts ==> TallyOf(keys).counts[k] == multiset(keys)[k]
    decreases |keys|
  {
    if keys != [] {
      var init := keys[..|keys| - 1];
      TallyCounts(init);
      assert keys == init + [keys[|keys| - 1]];
    }
  }

  /** Keys enter the order when first seen and never move: the order after a
      prefix of the keys is a prefix of the final order. */
  lemma {:induction false} TallyOrderGrows(keys: seq<string>, n: nat)
    requires n <= |keys|
    ensures TallyOf(keys[..n]).order <= TallyOf(keys).order
    decreases |keys|
  {
    if n < |keys| {
      var init := keys[..|keys| - 1];
      assert keys[..n] == init[..n];
      TallyOrderGrows(init, n);
    } else {
      assert keys[..n] == keys;
    }
  }

  /** The sum of the counts along `order`. */
  function Total(order: seq<string>, counts: map<string, nat>): int
    requires forall i :: 0 <= i < |order| ==> order[i] in counts
    decreases |order|
  {
    if order == [] then 0 else Total(order[..|order| - 1], counts) + counts[order[|order| - 1]]
  }

  lemma {:induction false} TotalOther(order: seq<string>, counts: map<string, nat>, k: string, n: nat)
    requires forall i :: 0 <= i < |order| ==> order[i] in counts
    requires k !in order
    ensures Total(order, counts[k := n]) == Total(order, counts)
    decreases |order|
  {
    if order != [] {
      TotalOther(order[..|order| - 1], counts, k, n);
    }
  }

  lemma {:induction false} TotalBump(order: seq<string>, counts: map<string, nat>, k: string)
    requires forall i :: 0 <= i < |order| ==> order[i] in counts
    requires Distinct(order) && k in order
    ensures Total(order, counts[k := counts[k] + 1]) == Total(order, counts) + 1
    decreases |order|
  {
    var init, last := order[..|order| - 1], order[|order| - 1];
    if last == k {
      assert k !in init;
      TotalOther(init, counts, k, counts[k] + 1);
    } else {
      assert k in init;
      TotalBump(init, counts, k);
    }
  }

  /** Before truncation the counts add up to the number of keys counted. */
  lemma {:induction false} TallySum(keys: seq<string>)
    ensures forall i :: 0 <= i < |TallyOf(keys).order| ==> TallyOf(keys).order[i] in TallyOf(keys).counts
    ensures Total(TallyOf(keys).order, TallyOf(keys).counts) == |keys|
    decreases |keys|
  {
    TallyCounts(keys);
    if keys != [] {
      var init, k := keys[..|keys| - 1], keys[|keys| - 1];
      var c := TallyOf(init);
      TallySum(init);
      TallyCounts(init);
      if k in c.counts {
        TotalBump(c.order, c.counts, k);
      } else {
        TotalOther(c.order, c.counts, k, 1);
        assert (c.order + [k])[..|c.order|] == c.order;
      }
    }
  }

  /** `Object.entries(dict)` in a given key order. */
  function Entries(order: seq<string>, counts: map<string, nat>): (es: seq<(string, nat)>)
    requires forall k :: k in order ==> k in counts
    ensures |es| == |order|
    ensures forall i :: 0 <= i < |order| ==> es[i] == (order[i], counts[order[i]])
  {
    seq(|order|, i requires 0 <= i < |order| => (order[i], counts[order[i]]))
  }

  // ---------------------------------------------------------------- object key order

  predicate IsDigit(c: char)
  {
    '0' <= c <= '9'
  }

  /** The value of a string of decimal digits. */
  function DigitsValue(s: string): nat
    decreases |s|
  {
    if s == [] then 0
    else DigitsValue(s[..|s| - 1]) * 10 + (if IsDigit(s[|s| - 1]) then s[|s| - 1] as int - '0' as int else 0)
  }

  /** An integer-like property key: the canonical decimal form of a number
      below 2^32 - 1. */
  predicate IsArrayIndex(k: string)
  {
    |k| > 0 && (forall i :: 0 <= i < |k| ==> IsDigit(k[i])) && (k[0] != '0' || |k| == 1)
    && DigitsValue(k) < 0xFFFF_FFFF
  }

  predicate IsNamedKey(k: string)
  {
    !IsArrayIndex(k)
  }

  /** Sorting integer-like keys by descending negated value puts them in
      ascending numeric order. */
  function NegatedIndex(k: string): int
  {
    -(DigitsValue(k) as int)
  }

  /** The order `Object.entries` enumerates a plain object's own keys in:
      integer-like keys first, in ascending numeric order, then the other
      keys in the order they were first assigned. */
  function ObjectKeys(order: seq<string>): (keys: seq<string>)
    ensures multiset(keys) == multiset(order)
    ensures |keys| == |order|
    ensures forall k :: k in keys <==> k in order
  {
    SortDescSorted(Filter(order, IsArrayIndex), NegatedIndex);
    FilterSplit(order, IsArrayIndex, IsNamedKey);
    var keys := SortDesc(Filter(order, IsArrayIndex), NegatedIndex) + Filter(order, IsNamedKey);
    assert |keys| == |multiset(keys)| == |order|;
    assert forall k :: k in keys <==> k in multiset(order);
    keys
  }

  /** Integer-like keys come first, in ascending numeric order, and the
      other keys follow in insertion order. */
  lemma ObjectKeysOrder(order: seq<string>)
    ensures |Filter(order, IsArrayIndex)| <= |ObjectKeys(order)|
    ensures forall i :: 0 <= i < |Filter(order, IsArrayIndex)| ==> IsArrayIndex(ObjectKeys(order)[i])
    ensures forall i, j :: 0 <= i < j < |Filter(order, IsArrayIndex)| ==>
      DigitsValue(ObjectKeys(order)[i]) <= DigitsValue(ObjectKeys(order)[j])
    ensures ObjectKeys(order)[|Filter(order, IsArrayIndex)|..] == Filter(order, IsNamedKey)
  {
    var indices := Filter(order, IsArrayIndex);
    var sorted := SortDesc(indices, NegatedIndex);
    SortDescSorted(indices, NegatedIndex);
    FilterMembers(order, IsArrayIndex);
    assert |sorted| == |multiset(sorted)| == |indices|;
    assert ObjectKeys(order) == sorted + Filter(order, IsNamedKey);
    forall i | 0 <= i < |indices| ensures IsArrayIndex(ObjectKeys(order)[i]) {
      assert sorted[i] in multiset(indices);
    }
    forall i, j | 0 <= i < j < |indices| ensures DigitsValue(ObjectKeys(order)[i]) <= DigitsValue(ObjectKeys(order)[j]) {
      assert NegatedIndex(sorted[i]) >= NegatedIndex(sorted[j]);
    }
  }

  /** With no integer-like key, the enumeration is the insertion order. */
  lemma ObjectKeysInsertionOrder(order: seq<string>)
    requires forall i :: 0 <= i < |order| ==> !IsArrayIndex(order[i])
    ensures ObjectKeys(order) == order
  {
    FilterNone(order, IsArrayIndex);
    FilterAll(order, IsNamedKey);
  }

  /** An extension is never integer-like. */
  lemma ExtensionIsNamed(path: string)
    ensures IsNamedKey(GetExtension(path))
  {
    var ext := GetExtension(path);
    if ext == "none" {
      assert !IsDigit(ext[0]);
    }
  }

  // ---------------------------------------------------------------- the two histograms

  /** The extensions of the blob entries, in listing order. */
  function ExtensionKeys(files: seq<Entry>): (keys: seq<string>)
    ensures |keys| <= |files|
    decreases |files|
  {
    if files == [] then []
    else
      var f := files[|files| - 1];
      ExtensionKeys(files[..|files| - 1]) + (if f.kind == Blob then [GetExtension(f.path)] else [])
  }

  /** The number of blob entries. */
  function BlobCount(files: seq<Entry>): nat
    decreases |files|
  {
    if files == [] then 0 else BlobCount(files[..|files| - 1]) + (if files[|files| - 1].kind == Blob then 1 else 0)
  }

  /** Only blobs are counted: one extension per blob, each of them named. */
  lemma {:induction false} ExtensionKeysOfBlobs(files: seq<Entry>)
    ensures |ExtensionKeys(files)| == BlobCount(files)
    ensures forall i :: 0 <= i < |ExtensionKeys(files)| ==> IsNamedKey(ExtensionKeys(files)[i])
    decreases |files|
  {
    if files != [] {
      ExtensionKeysOfBlobs(files[..|files| - 1]);
      ExtensionIsNamed(files[|files| - 1].path);
    }
  }

  /** One `dict[k] = (dict[k] || 0) + 1` on the dictionary's two parts. */
  method Increment(order: seq<string>, counts: map<string, nat>, name: string)
    returns (order': seq<string>, counts': map<string, nat>)
    ensures Counter(order', counts') == Bump(Counter(order, counts), name)
  {
    if name in counts {
      order', counts' := order, counts[name := counts[name] + 1];
    } else {
      order', counts' := order + [name], counts[name := 1];
    }
  }

  /** The `fileTypes` loop: one increment per blob. */
  method CountFileTypes(files: seq<Entry>) returns (c: Counter)
    ensures c == TallyOf(ExtensionKeys(files))
  {
    var order: seq<string> := [];
    var counts: map<string, nat> := map[];
    for i := 0 to |files|
      invariant Counter(order, counts) == TallyOf(ExtensionKeys(files[..i]))
    {
      assert files[..i + 1][..i] == files[..i];
      var keys := ExtensionKeys(files[..i]);
      if files[i].kind == Blob {
        var ext := GetExtension(files[i].path);
        assert ExtensionKeys(files[..i + 1]) == keys + [ext];
        TallySnoc(keys, ext);
        order, counts := Increment(order, counts, ext);
      } else {
        assert ExtensionKeys(files[..i + 1]) == keys;
      }
    }
    assert files[..|files|] == files;
    c := Counter(order, counts);
  }

  function LabelNames(labels: seq<Label>): (names: seq<string>)
    ensures |names| == |labels|
    ensures forall i :: 0 <= i < |labels| ==> names[i] == labels[i].name
  {
    seq(|labels|, i requires 0 <= i < |labels| => labels[i].name)
  }

  /** Every label occurrence of every issue, in order. */
  function LabelKeys(issues: seq<Issue>): seq<string>
    decreases |issues|
  {
    if issues == [] then [] else LabelKeys(issues[..|issues| - 1]) + LabelNames(issues[|issues| - 1].labels)
  }

  /** The `issueLabels` loops: one increment per label occurrence. */
  method CountLabels(issues: seq<Issue>) returns (c: Counter)
    ensures c == TallyOf(LabelKeys(issues))
  {
    var order: seq<string> := [];
    var counts: map<string, nat> := map[];
    for i := 0 to |issues|
      invariant Counter(order, counts) == TallyOf(LabelKeys(issues[..i]))
    {
      var done := LabelKeys(issues[..i]);
      var labels := issues[i].labels;
      assert done + LabelNames(labels[..0]) == done;
      for j := 0 to |labels|
        invariant Counter(order, counts) == TallyOf(done + LabelNames(labels[..j]))
      {
        var keys := done + LabelNames(labels[..j]);
        LabelNamesSnoc(labels, j);
        assert done + LabelNames(labels[..j + 1]) == keys + [labels[j].name];
        TallySnoc(keys, labels[j].name);
        order, counts := Increment(order, counts, labels[j].name);
      }
      assert labels[..|labels|] == labels;
      LabelKeysSnoc(issues, i);
    }
    assert issues[..|issues|] == issues;
    c := Counter(order, counts);
  }

  /** Counting one more key is one more bump. */
  lemma TallySnoc(keys: seq<string>, k: string)
    ensures TallyOf(keys + [k]) == Bump(TallyOf(keys), k)
  {
    assert (keys + [k])[..|keys|] == keys;
  }

  lemma LabelNamesSnoc(labels: seq<Label>, j: nat)
    requires j < |labels|
    ensures LabelNames(labels[..j + 1]) == LabelNames(labels[..j]) + [labels[j].name]
  {
  }

  lemma LabelKeysSnoc(issues: seq<Issue>, i: nat)
    requires i < |issues|
    ensures LabelKeys(issues[..i + 1]) == LabelKeys(issues[..i]) + LabelNames(issues[i].labels)
  {
    assert issues[..i + 1][..i] == issues[..i];
  }

  /** The number of label occurrences over all issues. */
  function LabelCount(issues: seq<Issue>): nat
    decreases |issues|
  {
    if issues == [] then 0 else LabelCount(issues[..|issues| - 1]) + |issues[|issues| - 1].labels|
  }

  /** Every label occurrence is counted once: the label counts add up to
      the number of label occurrences. */
  lemma LabelHistogram(issues: seq<Issue>)
    ensures forall i :: 0 <= i < |TallyOf(LabelKeys(issues)).order| ==>
      TallyOf(LabelKeys(issues)).order[i] in TallyOf(LabelKeys(issues)).counts
    ensures Total(TallyOf(LabelKeys(issues)).order, TallyOf(LabelKeys(issues)).counts) == LabelCount(issues)
  {
    TallySum(LabelKeys(issues));
    LabelKeysLength(issues);
  }

  lemma {:induction false} LabelKeysLength(issues: seq<Issue>)
    ensures |LabelKeys(issues)| == LabelCount(issues)
    decreases |issues|
  {
    if issues != [] {
      LabelKeysLength(issues[..|issues| - 1]);
    }
  }

  // ---------------------------------------------------------------- top five

  function Count(e: (string, nat)): int
  {
    e.1
  }

  /** `Object.entries(dict).sort(([, a], [, b]) => b - a)`. */
  function SortedEntries(c: Counter): seq<(string, nat)>
    requires forall k :: k in c.order ==> k in c.counts
  {
    SortDesc(Entries(ObjectKeys(c.order), c.counts), Count)
  }

  /** The histogram as the panel shows it: `.slice(0, 5)` of the sorted
      entries. */
  function TopEntries(c: Counter): seq<(string, nat)>
    requires forall k :: k in c.order ==> k in c.counts
  {
    Take(SortedEntries(c), 5)
  }

  /** `sorted.length > 0 ? sorted[0][1] : 0`. */
  function MaxCount(top: seq<(string, nat)>): nat
  {
    if |top| > 0 then top[0].1 else 0
  }

  /** The shown histogram: at most five entries, each a key with its own
      count, in descending order of count. */
  lemma TopEntriesShape(c: Counter)
    requires forall k :: k in c.order ==> k in c.counts
    ensures |TopEntries(c)| == if |c.order| < 5 then |c.order| else 5
    ensures SortedDesc(TopEntries(c), Count)
    ensures forall i :: 0 <= i < |TopEntries(c)| ==>
      TopEntries(c)[i].0 in c.order && TopEntries(c)[i].1 == c.counts[TopEntries(c)[i].0]
  {
    var es := Entries(ObjectKeys(c.order), c.counts);
    var top := TopEntries(c);
    assert top == Take(SortDesc(es, Count), 5);
    TopByKey(es, Count, 5);
    forall i | 0 <= i < |top|
      ensures top[i].0 in c.order && top[i].1 == c.counts[top[i].0]
    {
      var j :| 0 <= j < |es| && es[j] == top[i];
    }
  }

  /** No key left out of the shown histogram has a larger count than one
      shown. */
  lemma TopEntriesComplete(c: Counter)
    requires forall k :: k in c.order ==> k in c.counts
    ensures forall k, i ::
      (k in c.order && (k, c.counts[k]) !in TopEntries(c) && 0 <= i < |TopEntries(c)|)
      ==> c.counts[k] <= TopEntries(c)[i].1
  {
    var keys := ObjectKeys(c.order);
    var es := Entries(keys, c.counts);
    var top := TopEntries(c);
    assert top == Take(SortDesc(es, Count), 5);
    TopByKey(es, Count, 5);
    forall k, i | k in c.order && (k, c.counts[k]) !in top && 0 <= i < |top|
      ensures c.counts[k] <= top[i].1
    {
      var e := (k, c.counts[k]);
      assert k in keys;
      var j :| 0 <= j < |keys| && keys[j] == k;
      assert es[j] == e;
      assert e in es && e !in top;
      assert Count(e) <= Count(top[i]);
    }
  }

  /** The largest count shown is the largest count of all, and 0 only for an
      empty dictionary or one of zero counts. */
  lemma MaxCountIsMax(c: Counter)
    requires forall k :: k in c.order ==> k in c.counts
    ensures forall k :: k in c.order ==> c.counts[k] <= MaxCount(TopEntries(c))
    ensures c.order != [] ==> exists k :: k in c.order && c.counts[k] == MaxCount(TopEntries(c))
    ensures c.order == [] ==> MaxCount(TopEntries(c)) == 0
  {
    TopEntriesShape(c);
    TopEntriesComplete(c);
    var top := TopEntries(c);
    if c.order != [] {
      assert top[0].0 in c.order;
      forall k | k in c.order ensures c.counts[k] <= MaxCount(top) {
        if (k, c.counts[k]) in top {
          var i :| 0 <= i < |top| && top[i] == (k, c.counts[k]);
          assert Count(top[0]) >= Count(top[i]) || i == 0;
        }
      }
    }
  }

  /** Ties are broken by the enumeration order of the dictionary's keys:
      among entries with the same count, the sorted list keeps that order. */
  lemma SortedEntriesStable(c: Counter, v: int)
    requires forall k :: k in c.order ==> k in c.counts
    ensures WithKey(SortedEntries(c), Count, v) == WithKey(Entries(ObjectKeys(c.order), c.counts), Count, v)
  {
    SortDescStable(Entries(ObjectKeys(c.order), c.counts), Count, v);
  }

  /** The file-type histogram: its counts add up to the number of blobs, and
      since no extension is integer-like, extensions with equal counts keep
      the order in which they were first seen. */
  lemma FileTypeHistogram(files: seq<Entry>, v: int)
    ensures forall i :: 0 <= i < |TallyOf(ExtensionKeys(files)).order| ==>
      TallyOf(ExtensionKeys(files)).order[i] in TallyOf(ExtensionKeys(files)).counts
    ensures Total(TallyOf(ExtensionKeys(files)).order, TallyOf(ExtensionKeys(files)).counts) == BlobCount(files)
    ensures WithKey(SortedEntries(TallyOf(ExtensionKeys(files))), Count, v)
      == WithKey(Entries(TallyOf(ExtensionKeys(files)).order, TallyOf(ExtensionKeys(files)).counts), Count, v)
  {
    var keys := ExtensionKeys(files);
    var c := TallyOf(keys);
    TallySum(keys);
    TallyCounts(keys);
    ExtensionKeysOfBlobs(files);
    forall i | 0 <= i < |c.order| ensures !IsArrayIndex(c.order[i]) {
      assert c.order[i] in keys;
    }
    ObjectKeysInsertionOrder(c.order);
    SortedEntriesStable(c, v);
  }

  // ---------------------------------------------------------------- largest files

  /** `file.type === 'blob' && file.size`: a size that is present and not 0. */
  predicate IsSizedBlob(f: Entry)
  {
    f.kind == Blob && f.size.Some? && f.size.value != 0
  }

  function SizeOf(f: Entry): int
  {
    if f.size.Some? then f.size.value else 0
  }

  /** `largestFiles`: a sorted copy of the sized blobs, first five. */
  function LargestFiles(files: seq<Entry>): seq<Entry>
  {
    Take(SortDesc(Filter(files, IsSizedBlob), SizeOf), 5)
  }

  /** The first five sized blobs of the listing by size, or all of them when
      there are fewer, largest first, and no sized blob left out is larger
      than one shown. */
  lemma LargestFilesSpec(files: seq<Entry>)
    ensures |LargestFiles(files)| <= 5
    ensures |LargestFiles(files)| ==
      if |Filter(files, IsSizedBlob)| < 5 then |Filter(files, IsSizedBlob)| else 5
    ensures forall i :: 0 <= i < |LargestFiles(files)| ==> IsSizedBlob(LargestFiles(files)[i]) && LargestFiles(files)[i] in files
    ensures SortedDesc(LargestFiles(files), SizeOf)
    ensures forall f, i ::
      (f in files && IsSizedBlob(f) && f !in LargestFiles(files) && 0 <= i < |LargestFiles(files)|)
      ==> SizeOf(f) <= SizeOf(LargestFiles(files)[i])
  {
    FilterMembers(files, IsSizedBlob);
    TopByKey(Filter(files, IsSizedBlob), SizeOf, 5);
  }

  // ---------------------------------------------------------------- pull requests

  /** `repoData.pulls ? repoData.pulls.slice(0, 5) : []`. */
  function OpenPullRequests(pulls: Option<seq<Pull>>): (r: seq<Pull>)
    ensures pulls.None? ==> r == []
    ensures pulls.Some? ==> r <= pulls.value && |r| == if |pulls.value| < 5 then |pulls.value| else 5
  {
    if pulls.Some? then Take(pulls.value, 5) else []
  }

  /** `repoData.pulls ? repoData.pulls.length : 0`: the count is of all pulls,
      not only the ones listed. */
  function OpenPRCount(pulls: Option<seq<Pull>>): (n: nat)
    ensures n >= |OpenPullRequests(pulls)|
    ensures pulls.Some? ==> n == |pulls.value|
    ensures pulls.None? ==> n == 0
  {
    if pulls.Some? then |pulls.value| else 0
  }

  // ---------------------------------------------------------------- monthly commits

  /** One of the twelve buckets; the source labels it with the short month
      name, here it carries the month index. */
  datatype MonthBucket = MonthBucket(month: Month, commits: int)

  /** The commits of the weeks that start in month `m`, whatever the year. */
  function MonthTotal(weeks: seq<Week>, m: Month): int
    decreases |weeks|
  {
    if weeks == [] then 0
    else MonthTotal(weeks[..|weeks| - 1], m) + (if weeks[|weeks| - 1].month == m then weeks[|weeks| - 1].total else 0)
  }

  /** The commits of all weeks. */
  function WeekTotal(weeks: seq<Week>): int
    decreases |weeks|
  {
    if weeks == [] then 0 else WeekTotal(weeks[..|weeks| - 1]) + weeks[|weeks| - 1].total
  }

  /** The twelve month totals, January first. */
  function Buckets(weeks: seq<Week>): (b: seq<int>)
    ensures |b| == 12
  {
    seq(12, m requires 0 <= m < 12 => MonthTotal(weeks, m))
  }

  function Sum(s: seq<int>): int
    decreases |s|
  {
    if s == [] then 0 else Sum(s[..|s| - 1]) + s[|s| - 1]
  }

  lemma {:induction false} SumUpdate(s: seq<int>, i: nat, d: int)
    requires i < |s|
    ensures Sum(s[i := s[i] + d]) == Sum(s) + d
    decreases |s|
  {
    var t := s[i := s[i] + d];
    assert t[..|t| - 1] == if i == |s| - 1 then s[..|s| - 1] else s[..|s| - 1][i := s[i] + d];
    if i < |s| - 1 {
      SumUpdate(s[..|s| - 1], i, d);
    }
  }

  lemma {:induction false} SumZero(s: seq<int>)
    requires forall i :: 0 <= i < |s| ==> s[i] == 0
    ensures Sum(s) == 0
    decreases |s|
  {
    if s != [] {
      SumZero(s[..|s| - 1]);
    }
  }

  /** Every week lands in exactly one bucket: the buckets add up to the
      commits of all weeks. */
  lemma {:induction false} BucketsSum(weeks: seq<Week>)
    ensures Sum(Buckets(weeks)) == WeekTotal(weeks)
    decreases |weeks|
  {
    if weeks == [] {
      SumZero(Buckets(weeks));
    } else {
      var init, w := weeks[..|weeks| - 1], weeks[|weeks| - 1];
      BucketsSum(init);
      assert Buckets(weeks) == Buckets(init)[w.month := Buckets(init)[w.month] + w.total];
      SumUpdate(Buckets(init), w.month, w.total);
    }
  }

  /** The `monthlyCommits` loop: twelve zeroed buckets, and each week's total
      added in place to its month's bucket. */
  method MonthlyCommits(weeks: seq<Week>) returns (totals: seq<int>)
    ensures totals == Buckets(weeks)
  {
    var buckets := new int[12](_ => 0);
    for i := 0 to |weeks|
      invariant forall m :: 0 <= m < 12 ==> buckets[m] == MonthTotal(weeks[..i], m)
    {
      assert weeks[..i + 1][..i] == weeks[..i];
      buckets[weeks[i].month] := buckets[weeks[i].month] + weeks[i].total;
    }
    assert weeks[..|weeks|] == weeks;
    totals := buckets[..];
  }

  function Labelled(totals: seq<int>): (r: seq<MonthBucket>)
    requires |totals| == 12
    ensures |r| == 12
    ensures forall m :: 0 <= m < 12 ==> r[m].month == m && r[m].commits == totals[m]
  {
    seq(12, m requires 0 <= m < 12 => MonthBucket(m, totals[m]))
  }

  /** `[...b.slice(current + 1), ...b.slice(0, current + 1)]`. */
  function Rotate<T>(b: seq<T>, current: Month): seq<T>
    requires |b| == 12
  {
    b[current + 1..] + b[..current + 1]
  }

  /** The rotation keeps the twelve buckets and their cyclic order, starting
      at the month after the current one and ending at the current one. */
  lemma RotateSpec<T>(b: seq<T>, current: Month)
    requires |b| == 12
    ensures |Rotate(b, current)| == 12
    ensures forall i :: 0 <= i < 12 ==> Rotate(b, current)[i] == b[(current + 1 + i) % 12]
    ensures Rotate(b, current)[11] == b[current]
    ensures multiset(Rotate(b, current)) == multiset(b)
  {
    assert b == b[..current + 1] + b[current + 1..];
  }

  /** `commitDataAvailable ? orderedMonthlyCommits : []`. */
  function CommitActivity(activity: Option<seq<Week>>, current: Month): seq<MonthBucket>
  {
    if activity.Some? && |activity.value| > 0 then Rotate(Labelled(Buckets(activity.value)), current) else []
  }

  /** Missing or empty activity shows nothing rather than twelve zeros;
      otherwise twelve buckets ending at the current month, each holding the
      commits of its month. */
  lemma CommitActivitySpec(activity: Option<seq<Week>>, current: Month)
    ensures activity.None? || activity.value == [] ==> CommitActivity(activity, current) == []
    ensures activity.Some? && activity.value != [] ==>
      |CommitActivity(activity, current)| == 12
      && CommitActivity(activity, current)[11].month == current
      && (forall i :: 0 <= i < 12 ==>
            CommitActivity(activity, current)[i].month == (current + 1 + i) % 12
            && CommitActivity(activity, current)[i].commits == MonthTotal(activity.value, CommitActivity(activity, current)[i].month))
  {
    if activity.Some? && activity.value != [] {
      RotateSpec(Labelled(Buckets(activity.value)), current);
    }
  }

  // ---------------------------------------------------------------- the memo

  datatype Insights = Insights(
    sortedFileTypes: seq<(string, nat)>,
    maxFileTypeCount: nat,
    largestFiles: seq<Entry>,
    sortedIssueLabels: seq<(string, nat)>,
    maxIssueLabelCount: nat,
    openPullRequests: seq<Pull>,
    openPRCount: nat,
    commitActivity: seq<MonthBucket>)

  /** The `insights` memo; `None` when there is no repository data, which
      the panel shows as the "No data available" message. */
  function InsightsOf(repoData: Option<RepoData>, current: Month): (r: Option<Insights>)
    ensures r.None? <==> repoData.None?
    ensures r.Some? ==> |r.value.sortedFileTypes| <= 5 && |r.value.sortedIssueLabels| <= 5
    ensures r.Some? ==> |r.value.largestFiles| <= 5 && |r.value.openPullRequests| <= 5
  {
    match repoData
    case None => None
    case Some(d) =>
      var fileTypes := TallyOf(ExtensionKeys(d.files));
      var labels := TallyOf(LabelKeys(d.issues));
      TallyCounts(ExtensionKeys(d.files));
      TallyCounts(LabelKeys(d.issues));
      var sortedFileTypes := TopEntries(fileTypes);
      var sortedIssueLabels := TopEntries(labels);
      Some(Insights(sortedFileTypes, MaxCount(sortedFileTypes), LargestFiles(d.files),
                    sortedIssueLabels, MaxCount(sortedIssueLabels),
                    OpenPullRequests(d.pulls), OpenPRCount(d.pulls), CommitActivity(d.commitActivity, current)))
  }

  /** The memo body, with its two counting loops and the bucket loop. */
  method ComputeInsights(repoData: Option<RepoData>, current: Month) returns (r: Option<Insights>)
    ensures r == InsightsOf(repoData, current)
  {
    if repoData.None? {
      return None;
    }
    var d := repoData.value;
    var fileTypes := CountFileTypes(d.files);
    TallyCounts(ExtensionKeys(d.files));
    var sortedFileTypes := TopEntries(fileTypes);
    var largestFiles := LargestFiles(d.files);
    var labels := CountLabels(d.issues);
    TallyCounts(LabelKeys(d.issues));
    var sortedIssueLabels := TopEntries(labels);
    var commitActivity: seq<MonthBucket> := [];
    if d.commitActivity.Some? && |d.commitActivity.value| > 0 {
      var totals := MonthlyCommits(d.commitActivity.value);
      commitActivity := Rotate(Labelled(totals), current);
    }
    r := Some(Insights(sortedFileTypes, MaxCount(sortedFileTypes), largestFiles,
                       sortedIssueLabels, MaxCount(sortedIssueLabels),
                       OpenPullRequests(d.pulls), OpenPRCount(d.pulls), commitActivity));
  }
}
