/** The in-place array steps of the B+ tree, each against the sequence it
    leaves in the occupied part of the array. */
module ArrayFunctions {
  import opened Ordering

  function InsertAt<T>(s: seq<T>, i: nat, x: T): (r: seq<T>)
    requires i <= |s|
    ensures |r| == |s| + 1
  {
    s[..i] + [x] + s[i..]
  }

  function DeleteAt<T>(s: seq<T>, i: nat): (r: seq<T>)
    requires i < |s|
    ensures |r| == |s| - 1
  {
    s[..i] + s[i + 1..]
  }

  /** `data[..n]` becomes the old one with `entry` at `i`. */
  method InsertItem<T>(data: array<T>, i: nat, n: nat, entry: T) returns (count: nat)
    requires i <= n < data.Length
    modifies data
    ensures count == n + 1 && data[..count] == InsertAt(old(data[..n]), i, entry)
  {
    var j := n;
    while j > i
      invariant i <= j <= n
      invariant forall k :: 0 <= k < j ==> data[k] == old(data[k])
      invariant forall k :: j < k <= n ==> data[k] == old(data[k - 1])
    {
      data[j] := data[j - 1];
      j := j - 1;
    }
    data[i] := entry;
    count := n + 1;
  }

  method AttachItem<T>(data: array<T>, n: nat, entry: T) returns (count: nat)
    requires n < data.Length
    modifies data
    ensures count == n + 1 && data[..count] == old(data[..n]) + [entry]
  {
    data[n] := entry;
    count := n + 1;
  }

  method DeleteItem<T>(data: array<T>, i: nat, n: nat) returns (count: nat, entry: T)
    requires i < n <= data.Length
    modifies data
    ensures count == n - 1 && entry == old(data[i]) && data[..count] == DeleteAt(old(data[..n]), i)
  {
    entry := data[i];
    count := n - 1;
    var j := i;
    while j < count
      invariant i <= j <= count
      invariant forall k :: 0 <= k < i ==> data[k] == old(data[k])
      invariant forall k :: i <= k < j ==> data[k] == old(data[k + 1])
      invariant forall k :: j <= k < n ==> data[k] == old(data[k])
    {
      data[j] := data[j + 1];
      j := j + 1;
    }
  }

  method DetachItem<T>(data: array<T>, n: nat) returns (count: nat, entry: T)
    requires 0 < n <= data.Length
    ensures count == n - 1 && entry == data[n - 1]
  {
    count := n - 1;
    entry := data[count];
  }

  /** Both counts move while the loop runs, their sum does not. */
  method Merge<T>(data1: array<T>, n1: nat, data2: array<T>, n2: nat) returns (count1: nat, count2: nat)
    requires n1 + n2 <= data1.Length && n2 <= data2.Length && data1 != data2
    modifies data1
    ensures count1 == n1 + n2 && count2 == 0 && data1[..count1] == old(data1[..n1]) + data2[..n2]
  {
    count1, count2 := n1, n2;
    var i, g := n1, 0;
    while i < count1 + count2
      invariant i == count1 == n1 + g && count2 == n2 - g && 0 <= g <= n2
      invariant data1[..n1] == old(data1[..n1])
      invariant forall k :: 0 <= k < g ==> data1[n1 + k] == data2[k]
    {
      data1[i] := data2[g];
      g, count1, count2 := g + 1, count1 + 1, count2 - 1;
      i := i + 1;
    }
    assert data1[..count1] == data1[..n1] + data1[n1..count1];
  }

  /** The upper half, rounded down, moves to `data2`. */
  method Split<T>(data1: array<T>, n1: nat, data2: array<T>) returns (count1: nat, count2: nat)
    requires n1 <= data1.Length && n1 / 2 <= data2.Length && data1 != data2
    modifies data2
    ensures count1 == n1 - n1 / 2 && count2 == n1 / 2
    ensures data2[..count2] == data1[count1..n1]
  {
    count2 := n1 / 2;
    var i, g: nat := if n1 % 2 == 1 then count2 + 1 else count2, 0;
    while i < n1
      invariant i == n1 - n1 / 2 + g && g <= n1 / 2
      invariant forall k :: 0 <= k < g ==> data2[k] == data1[n1 - n1 / 2 + k]
    {
      data2[g] := data1[i];
      g := g + 1;
      i := i + 1;
    }
    count1 := n1 - count2;
  }

  method CopyArray<T>(dest: array<T>, src: array<T>, n: nat) returns (count: nat)
    requires n <= dest.Length && n <= src.Length
    modifies dest
    ensures count == n && dest[..n] == old(src[..n])
  {
    for i := 0 to n
      invariant dest[..i] == old(src[..i])
      invariant dest != src ==> src[..] == old(src[..])
      invariant dest == src ==> dest[..] == old(src[..])
    {
      dest[i] := src[i];
    }
    count := n;
  }

  // ----- ordered arrays of items

  /** A key with its list of values; items compare by key. */
  datatype Item = Item(key: Key, values: seq<nat>)

  /** Strictly increasing keys. */
  ghost predicate Ascending(s: seq<Item>) { forall i, j :: 0 <= i < j < |s| ==> KeyLess(s[i].key, s[j].key) }

  /** The first position whose key is not below `k`. */
  function FirstGe(s: seq<Item>, k: Key): (r: nat)
    ensures r <= |s|
    ensures forall i :: 0 <= i < r ==> KeyLess(s[i].key, k)
    ensures r < |s| ==> !KeyLess(s[r].key, k)
  {
    if s == [] || !KeyLess(s[0].key, k) then 0 else 1 + FirstGe(s[1..], k)
  }

  lemma FirstGeIs(s: seq<Item>, k: Key, r: nat)
    requires r <= |s|
    requires forall i :: 0 <= i < r ==> KeyLess(s[i].key, k)
    requires r < |s| ==> !KeyLess(s[r].key, k)
    ensures FirstGe(s, k) == r
  {
  }

  method FindFirstGe(data: array<Item>, n: nat, key: Key) returns (i: nat)
    requires n <= data.Length
    ensures i == FirstGe(data[..n], key)
  {
    for j := 0 to n
      invariant forall m :: 0 <= m < j ==> KeyLess(data[m].key, key)
    {
      if !KeyLess(data[j].key, key) {
        FirstGeIs(data[..n], key, j);
        return j;
      }
    }
    FirstGeIs(data[..n], key, n);
    i := n;
  }

  method OrderedInsert(data: array<Item>, n: nat, entry: Item) returns (count: nat)
    requires n < data.Length
    modifies data
    ensures count == n + 1 && data[..count] == InsertAt(old(data[..n]), FirstGe(old(data[..n]), entry.key), entry)
  {
    var i := FindFirstGe(data, n, entry.key);
    if i == n {
      data[i] := entry;
      count := n + 1;
    } else {
      count := InsertItem(data, i, n, entry);
    }
  }

  /** Is every one of the items at least `key`? */
  method IsLe(data: array<Item>, n: nat, key: Key) returns (r: bool)
    requires n <= data.Length
    ensures r <==> forall i :: 0 <= i < n ==> !KeyLess(data[i].key, key)
  {
    for i := 0 to n
      invariant forall j :: 0 <= j < i ==> !KeyLess(data[j].key, key)
    {
      if KeyLess(data[i].key, key) { return false; }
    }
    r := true;
  }

  /** Is every one of the items below `key`? */
  method IsGt(data: array<Item>, n: nat, key: Key) returns (r: bool)
    requires n <= data.Length
    ensures r <==> forall i :: 0 <= i < n ==> KeyLess(data[i].key, key)
  {
    hide KeyLess;
    for i := 0 to n
      invariant forall j :: 0 <= j < i ==> KeyLess(data[j].key, key)
    {
      // item <= data[i] holds for equal keys and for smaller ones
      if key == data[i].key || KeyLess(key, data[i].key) {
        KeyLessIsStrictTotalOrder();
        return false;
      }
      KeyLessTotal(data[i].key, key);
    }
    r := true;
  }
}
