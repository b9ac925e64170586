/**
 The hash table with inline keys, doubling growth and lazy rehashing.
 A bucket list is a sequence; `Unmade` is the C code's "next == NULL: needs remake".
 The abstract value is the set `nodes` of linked nodes.
 */
module HashTable {
  import opened Arithmetic
  import opened Buckets

  type byte = x: nat | x < 256
  const UINT32_MAX := 0xFFFF_FFFF

  /** The configured sizes of a new table: what the build checks of `NS_CONFIG_HASHTBL_MIN_SIZE`, up to 2^31. */
  predicate MinimumSize(n: nat) { IsPow2(n) && 8 <= n <= UINT32_MAX / 2 + 1 }

  datatype Status = Ok | Exists | NoMem | Empty

  // ---- FNV-1a ----

  function Fnv1a(data: seq<byte>): (h: nat)
    ensures h <= UINT32_MAX
  {
    FnvFold(data) as nat
  }

  function FnvFold(data: seq<byte>): bv32 {
    if data == [] then 2166136261 else FnvStep(FnvFold(data[..|data| - 1]), data[|data| - 1])
  }

  function FnvStep(h: bv32, b: byte): bv32 { (h ^ (b as bv32)) * 16777619 }

  /** The test vectors of the FNV-1a hash for the empty string, "a" and "foobar". */
  lemma FnvVectors()
    ensures Fnv1a([]) == 0x811C9DC5 && Fnv1a([97]) == 0xE40C292C
    ensures Fnv1a([102, 111, 111, 98, 97, 114]) == 0xBF9CF968
  {
    hide FnvStep, FnvFold;
    FnvSteps();
    FnvEmpty();
    var data: seq<byte> := [102, 111, 111, 98, 97, 114];
    FnvMore([97], 0);
    FnvMore(data, 0);
    FnvMore(data, 1);
    FnvMore(data, 2);
    FnvMore(data, 3);
    FnvMore(data, 4);
    FnvMore(data, 5);
    assert data[..0] == [97][..0] == [] && data[..6] == data && [97][..1] == [97];
  }

  lemma FnvEmpty()
    ensures FnvFold([]) == 0x811C9DC5
  {
  }

  lemma FnvMore(data: seq<byte>, i: nat)
    requires i < |data|
    ensures FnvFold(data[..i + 1]) == FnvStep(FnvFold(data[..i]), data[i])
  {
    hide FnvStep;
    assert data[..i + 1][..i] == data[..i];
  }

  lemma FnvSteps()
    ensures FnvStep(0x811C9DC5, 97) == 0xE40C292C
    ensures FnvStep(0x811C9DC5, 102) == 0xE30C2799 && FnvStep(0xE30C2799, 111) == 0x6222E842
    ensures FnvStep(0x6222E842, 111) == 0xA9F37ED7 && FnvStep(0xA9F37ED7, 98) == 0x3F5076EF
    ensures FnvStep(0x3F5076EF, 97) == 0x39AAA18A && FnvStep(0x39AAA18A, 114) == 0xBF9CF968
  {
  }

  /** `fnv1a`, byte by byte from the front. */
  method HashOf(data: seq<byte>) returns (hash: nat)
    ensures hash == Fnv1a(data)
  {
    hide FnvStep;
    var h: bv32 := 2166136261;
    var i := 0;
    while i < |data|
      invariant 0 <= i <= |data| && h == FnvFold(data[..i])
    {
      assert data[..i + 1][..i] == data[..i];
      h := FnvStep(h, data[i]);
      i := i + 1;
    }
    assert data[..i] == data;
    hash := h as nat;
  }

  // ---- bucket lists ----

  predicate NoDup(s: seq<Node>) { forall i, j :: 0 <= i < j < |s| ==> s[i] != s[j] }

  function Without(s: seq<Node>, n: Node): seq<Node> {
    if s == [] then [] else if s[0] == n then s[1..] else [s[0]] + Without(s[1..], n)
  }

  lemma {:induction false} WithoutKeeps(s: seq<Node>, n: Node)
    requires NoDup(s)
    ensures NoDup(Without(s, n)) && forall m :: m in Without(s, n) <==> m in s && m != n
  {
    if s != [] {
      var t := s[1..];
      assert forall m :: m in s <==> m == s[0] || m in t;
      if s[0] != n {
        WithoutKeeps(t, n);
        PushFrontKeeps(Without(t, n), s[0]);
      }
    }
  }

  lemma PushFrontKeeps(s: seq<Node>, n: Node)
    requires NoDup(s) && n !in s
    ensures NoDup([n] + s) && forall m :: m in [n] + s <==> m == n || m in s
  {
  }

  function InsertedAfter(s: seq<Node>, o: Node, n: Node): seq<Node> {
    if s == [] then [] else if s[0] == o then [o, n] + s[1..] else [s[0]] + InsertedAfter(s[1..], o, n)
  }

  function Swapped(s: seq<Node>, o: Node, n: Node): seq<Node> {
    if s == [] then [] else if s[0] == o then [n] + s[1..] else [s[0]] + Swapped(s[1..], o, n)
  }

  /** Hooking n in behind o and taking o out puts n exactly where o was. */
  lemma {:induction false} SwappedKeeps(s: seq<Node>, o: Node, n: Node)
    requires NoDup(s) && n !in s
    ensures o in s ==> Without(InsertedAfter(s, o, n), o) == Swapped(s, o, n)
    ensures NoDup(Swapped(s, o, n))
    ensures forall m :: m in Swapped(s, o, n) <==> (m in s && m != o) || (m == n && o in s)
  {
    if s != [] {
      var t := s[1..];
      assert forall m :: m in s <==> m == s[0] || m in t;
      if s[0] == o {
        assert ([o, n] + t)[1..] == [n] + t;
        PushFrontKeeps(t, n);
      } else {
        SwappedKeeps(t, o, n);
        assert ([s[0]] + InsertedAfter(t, o, n))[1..] == InsertedAfter(t, o, n);
        PushFrontKeeps(Swapped(t, o, n), s[0]);
      }
    }
  }

  datatype Bucket = Unmade | Made(list: seq<Node>)

  /** A node with its key inline. `at` is the bucket whose list holds it, -1 when its list pointers are its own. */
  class Node {
    var key: seq<byte>
    var hash: nat
    var valueLen: nat
    var at: int

    constructor (key: seq<byte>, hash: nat, valueLen: nat)
      ensures this.key == key && this.hash == hash && this.valueLen == valueLen && at == -1
    {
      this.key, this.hash, this.valueLen, at := key, hash, valueLen, -1;
    }

    predicate IsInserted()
      reads this
    {
      at >= 0
    }
  }

  class Table {
    const minSize: nat
    var table: array<Bucket>
    var mask: nat
    var threshold: nat
    var count: nat
    ghost var nodes: set<Node>

    ghost predicate Sized()
      reads this`table, this`mask, this`threshold, this`count, this`nodes
    {
      && table.Length == mask + 1 && IsPow2(mask + 1) && 8 <= minSize <= mask + 1 <= UINT32_MAX / 2 + 1
      && count == |nodes| < threshold <= mask + 1
    }

    /** Linked nodes and bucket lists agree. */
    ghost predicate Filed()
      reads this`table, this`nodes, table, nodes`at
    {
      && (forall n {:trigger n.at} :: n in nodes ==>
            0 <= n.at < table.Length && table[n.at].Made? && n in table[n.at].list)
      && (forall i {:trigger table[i]} :: 0 <= i < table.Length && table[i].Made? ==>
            NoDup(table[i].list) && forall n :: n in table[i].list ==> n in nodes && n.at == i)
    }

    ghost function Flags(): (made: seq<bool>)
      reads this`table, table
      ensures |made| == table.Length && forall i :: 0 <= i < table.Length ==> made[i] == table[i].Made?
    {
      FlagsOf(table[..])
    }

    static ghost function FlagsOf(s: seq<Bucket>): (made: seq<bool>)
      ensures |made| == |s| && forall i :: 0 <= i < |s| ==> made[i] == s[i].Made?
    {
      seq(|s|, i requires 0 <= i < |s| => s[i].Made?)
    }

    /** The bucket of a hash, `hash & mask`. */
    function Home(hash: nat): (i: nat)
      reads this`mask
      ensures i <= mask
    {
      Slot(hash, mask + 1)
    }

    /** Every linked node but `stray` lies in the nearest initialised ancestor of its hash's bucket. */
    ghost predicate PlacedBut(stray: Node?)
      reads this`table, this`mask, this`nodes, table, nodes`at, nodes`hash
    {
      && IsPow2(mask + 1) && table.Length == mask + 1 && table[0].Made?
      && forall n {:trigger n.hash} :: n in nodes && n != stray ==> n.at == Nearest(Flags(), Home(n.hash), mask + 1)
    }

    ghost predicate Valid()
      reads this, table, nodes`at, nodes`hash
    {
      Sized() && Filed() && PlacedBut(null)
    }

    /** Every linked node carries the hash of its key; false only between a key change and its refresh. */
    ghost predicate Fresh()
      reads this`nodes, nodes`key, nodes`hash
    {
      forall n {:trigger n.key} :: n in nodes ==> n.hash == Fnv1a(n.key)
    }

    constructor New(minSize: nat, threshold: nat)
      requires MinimumSize(minSize) && 1 <= threshold <= minSize
      ensures Valid() && Fresh() && nodes == {} && this.threshold == threshold && mask + 1 == minSize == this.minSize
      ensures fresh(table)
    {
      this.minSize := minSize;
      mask := minSize - 1;
      this.threshold := threshold;
      count := 0;
      nodes := {};
      table := new Bucket[minSize](_ => Made([]));
    }

    /** `ns_list_remove`: takes the node out of the list that holds it. */
    method Unhook(node: Node)
      requires Filed() && node in nodes
      modifies this`nodes, table, node`at
      ensures Filed() && nodes == old(nodes) - {node} && node.at == -1
      ensures table[..] == old(table[..][node.at := Made(Without(table[node.at].list, node))])
      ensures Flags() == old(Flags())
    {
      var i := node.at;
      WithoutKeeps(table[i].list, node);
      table[i] := Made(Without(table[i].list, node));
      nodes := nodes - {node};
      node.at := -1;
    }

    /** `ns_list_push_front` on bucket `to`. */
    method Push(node: Node, to: nat)
      requires Filed() && node !in nodes && to < table.Length && table[to].Made?
      modifies this`nodes, table, node`at
      ensures Filed() && nodes == old(nodes) + {node} && node.at == to
      ensures table[..] == old(table[..][to := Made([node] + table[to].list)])
      ensures Flags() == old(Flags())
    {
      PushFrontKeeps(table[to].list, node);
      table[to] := Made([node] + table[to].list);
      nodes := nodes + {node};
      node.at := to;
    }

    /** `ns_list_init` on an uninitialised bucket. */
    method InitBucket(i: nat)
      requires Filed() && i < table.Length && table[i].Unmade?
      modifies table
      ensures Filed() && table[..] == old(table[..][i := Made([])]) && Flags() == old(Flags())[i := true]
    {
      table[i] := Made([]);
    }

    /** The nearest initialised ancestor of idx, searched by halving the mask. */
    method FindAncestor(idx: nat) returns (oldIdx: nat)
      requires Sized() && table[0].Made? && idx <= mask && table[idx].Unmade?
      ensures oldIdx == Nearest(Flags(), idx, mask + 1) && oldIdx < idx
    {
      hide Slot, IsPow2, Nearest, Flags, FlagsOf;
      var maskTmp: nat := mask / 2;
      HalfStep(Flags(), idx, mask + 1);
      while maskTmp != 0 && table[Slot(idx, maskTmp + 1)].Unmade?
        invariant IsPow2(maskTmp + 1) && maskTmp <= mask / 2
        invariant Nearest(Flags(), Slot(idx, maskTmp + 1), maskTmp + 1) == Nearest(Flags(), idx, mask + 1)
        decreases maskTmp
      {
        HalfStep(Flags(), Slot(idx, maskTmp + 1), maskTmp + 1);
        AncestorTwice(idx, maskTmp + 1, maskTmp / 2 + 1);
        maskTmp := maskTmp / 2;
      }
      oldIdx := Slot(idx, maskTmp + 1);
      FirstMade(Flags(), oldIdx, maskTmp + 1);
    }

    static lemma FirstMade(made: seq<bool>, i: nat, n: nat)
      requires IsPow2(n) && i < n <= |made| && made[0] && (made[i] || n == 1)
      ensures Nearest(made, i, n) == i
    {
    }

    /**
     How far the split of bucket `from` has come: of its former nodes `list` the first `done` are where their hash
     says. `flags` are the buckets initialised at the start; the ones initialised since were all waiting on `from`.
     */
    ghost predicate Splitting(list: seq<Node>, done: int, from: nat, flags: seq<bool>, stray: Node?)
      reads this`mask, this`nodes, this`table, table, nodes`at, nodes`hash
    {
      && IsPow2(mask + 1) && |flags| == table.Length == mask + 1 && flags[0] && 0 <= done <= |list| && NoDup(list)
      && (forall b {:trigger flags[b]} :: 0 <= b <= mask && flags[b] ==> table[b].Made?)
      && (forall b {:trigger table[b]} :: 0 <= b <= mask && table[b].Made? && !flags[b] ==>
            Nearest(flags, b, mask + 1) == from)
      && (forall k {:trigger list[k]} :: 0 <= k < |list| ==>
            && list[k] in nodes && Nearest(flags, Home(list[k].hash), mask + 1) == from
            && list[k].at == if k < done then Home(list[k].hash) else from)
      && (forall n {:trigger n.hash} :: n in nodes && n !in list && n != stray ==>
            n.at == Nearest(flags, Home(n.hash), mask + 1) != from)
    }

    lemma SplitStarts(from: nat, stray: Node?, idx: nat)
      requires Sized() && Filed() && PlacedBut(stray) && idx <= mask && table[idx].Unmade?
      requires stray != null && stray in nodes ==> Home(stray.hash) == idx
      requires from == Nearest(Flags(), idx, mask + 1)
      ensures Splitting(table[from].list, 0, from, Flags(), stray)
    {
    }

    /** Takes the node out of its list and puts it at the front of bucket `to`, initialising that if needed. */
    method Refile(node: Node, to: nat)
      requires Filed() && node in nodes && to < table.Length
      modifies this`nodes, table, node`at
      ensures Filed() && nodes == old(nodes) && node.at == to
      ensures forall b {:trigger table[b]} :: 0 <= b < table.Length ==>
                table[b].Made? == (old(table[b].Made?) || b == to)
    {
      hide Flags, FlagsOf, Without;
      Unhook(node);
      if table[to].Unmade? { InitBucket(to); }
      Push(node, to);
    }

    /** One round of the split loop: the node moves to the front of its own bucket unless it is there already. */
    method SplitOne(list: seq<Node>, i: nat, from: nat, ghost flags: seq<bool>, ghost stray: Node?)
      requires Filed() && Splitting(list, i, from, flags, stray) && i < |list|
      modifies this`nodes, table, nodes`at
      ensures Filed() && Splitting(list, i + 1, from, flags, stray) && nodes == old(nodes)
    {
      hide Slot, IsPow2, Nearest, Flags, FlagsOf, Home, Filed;
      var node := list[i];
      var newIdx := Home(node.hash);
      if newIdx != from {
        Refile(node, newIdx);
      }
    }

    /** After the loop the bucket itself is initialised, unless a node of its own did so already. */
    method InitLast(idx: nat, ghost list: seq<Node>, ghost from: nat, ghost flags: seq<bool>, ghost stray: Node?)
      requires Filed() && Splitting(list, |list|, from, flags, stray)
      requires idx <= mask && Nearest(flags, idx, mask + 1) == from
      modifies table
      ensures Filed() && Splitting(list, |list|, from, flags, stray) && table[idx].Made?
    {
      hide Slot, IsPow2, Nearest, Flags, FlagsOf, Home;
      if table[idx].Unmade? { InitBucket(idx); }
    }

    lemma SplitDone(list: seq<Node>, from: nat, flags: seq<bool>, stray: Node?)
      requires Filed() && Splitting(list, |list|, from, flags, stray)
      ensures PlacedBut(stray)
    {
      hide Slot, IsPow2, Nearest, FlagsOf, Flags, Home;
      forall n | n in nodes && n != stray
        ensures n.at == Nearest(Flags(), Home(n.hash), mask + 1)
      {
        if n in list {
          FirstMade(Flags(), n.at, mask + 1);
        } else {
          NearestStable(flags, Flags(), mask + 1, Home(n.hash), mask + 1, from);
        }
      }
    }

    /**
     `ns_hashtbl_try_remake`: initialises bucket idx by splitting its nearest initialised ancestor. `stray` is a
     node whose hash was just refreshed and whose new bucket is idx; it alone may lie in a wrong bucket.
     */
    method TryRemake(idx: nat, ghost stray: Node?)
      requires Sized() && Filed() && PlacedBut(stray) && idx <= mask
      requires stray != null && stray in nodes ==> Home(stray.hash) == idx
      modifies this`nodes, table, nodes`at
      ensures Sized() && Filed() && PlacedBut(stray) && nodes == old(nodes)
      ensures table[idx].Made?
    {
      hide Slot, IsPow2, Nearest, Flags, FlagsOf, Home, Splitting, Filed;
      if table[idx].Unmade? {
        var oldIdx := FindAncestor(idx);
        SplitStarts(oldIdx, stray, idx);
        ghost var flags := Flags();
        var list := table[oldIdx].list;
        var i := 0;
        while i < |list|
          invariant 0 <= i <= |list|
          invariant Filed() && Splitting(list, i, oldIdx, flags, stray) && nodes == old(nodes)
        {
          SplitOne(list, i, oldIdx, flags, stray);
          i := i + 1;
        }
        InitLast(idx, list, oldIdx, flags, stray);
        SplitDone(list, oldIdx, flags, stray);
      }
    }

    /** `ns_hashtbl_resize`: twice the buckets, the upper half uninitialised; refused at 2^31 buckets. */
    method Resize(allocOk: bool) returns (status: Status)
      requires Valid()
      modifies this`table, this`mask, this`threshold
      ensures Valid()
      ensures status == if mask != old(mask) then Ok else NoMem
      ensures status == Ok <==> allocOk && old(mask) < UINT32_MAX / 2
      ensures status == Ok ==> fresh(table) && mask == 2 * old(mask) + 1 && threshold == 2 * old(threshold)
      ensures status != Ok ==> table == old(table) && threshold == old(threshold)
    {
      hide Slot, Nearest, Flags, FlagsOf, Filed;
      var oldSize, newMask := mask + 1, 2 * mask + 1;
      if mask >= UINT32_MAX / 2 { return NoMem; }
      if !allocOk { return NoMem; }
      var newTable := CopyTable(oldSize);
      ghost var made := Flags();
      table := newTable;
      mask := newMask;
      threshold := 2 * threshold;
      RoomToDouble(oldSize);
      DoubledFiled();
      DoubledPlaced(made, oldSize);
      status := Ok;
    }

    static lemma SmallPowers()
      ensures IsPow2(2) && IsPow2(256) && IsPow2(128)
    {
    }

    static lemma RoomToDouble(size: nat)
      requires IsPow2(size) && size <= UINT32_MAX / 2
      ensures IsPow2(2 * size) && 2 * size <= UINT32_MAX / 2 + 1
    {
      hide IsPow2;
      SmallPowers();
      Pow2Product(2, size);
      Pow2Product(256, 256);
      Pow2Product(256, 128);
      Pow2Product(256 * 256, 256 * 128);
      HalfOfLarger(size, 0x8000_0000);
    }

    /** The new array: the old buckets, initialised or not, and an uninitialised upper half. */
    method CopyTable(oldSize: nat) returns (newTable: array<Bucket>)
      requires table.Length == oldSize
      ensures fresh(newTable) && newTable.Length == 2 * oldSize
      ensures forall k :: 0 <= k < oldSize ==> newTable[k] == table[k]
      ensures forall k :: oldSize <= k < 2 * oldSize ==> newTable[k].Unmade?
    {
      newTable := new Bucket[2 * oldSize];
      forall i | oldSize <= i < 2 * oldSize { newTable[i] := Unmade; }
      var i := 0;
      while i < oldSize
        invariant 0 <= i <= oldSize
        invariant forall k :: 0 <= k < i ==> newTable[k] == table[k]
        invariant forall k :: oldSize <= k < 2 * oldSize ==> newTable[k].Unmade?
        modifies newTable
      {
        if table[i].Unmade? {
          newTable[i] := Unmade;
        } else {
          newTable[i] := Made(table[i].list);
        }
        i := i + 1;
      }
    }

    twostate lemma DoubledFiled()
      requires old(Filed()) && nodes == old(nodes) && table.Length == 2 * old(table.Length)
      requires forall n {:trigger n.at} :: n in nodes ==> n.at == old(n.at)
      requires forall k :: 0 <= k < old(table.Length) ==> table[k] == old(table[k])
      requires forall k :: old(table.Length) <= k < table.Length ==> table[k].Unmade?
      ensures Filed()
    {
    }

    lemma DoubledPlaced(made: seq<bool>, oldSize: nat)
      requires oldSize > 0 && IsPow2(oldSize) && mask + 1 == 2 * oldSize == table.Length && |made| == oldSize && made[0]
      requires forall b :: 0 <= b < oldSize ==> made[b] == table[b].Made?
      requires forall b :: oldSize <= b < 2 * oldSize ==> table[b].Unmade?
      requires forall n {:trigger n.hash} :: n in nodes ==> n.at == Nearest(made, Slot(n.hash, oldSize), oldSize)
      ensures PlacedBut(null)
    {
      hide Nearest;
      NearestDouble(made, Flags(), 0, oldSize);
      forall n | n in nodes
        ensures n.at == Nearest(Flags(), Home(n.hash), mask + 1)
      {
        NearestDouble(made, Flags(), n.hash, oldSize);
      }
    }

    /** `ns_hashtbl_insert`. Nodes with equal keys may coexist. On failure nothing changes. */
    method Insert(node: Node, allocOk: bool) returns (status: Status)
      requires Valid()
      modifies this, table, nodes`at, node`at
      ensures Valid()
      ensures status == if old(node.IsInserted()) then Exists
                        else if old(count) + 1 >= old(threshold) && (!allocOk || old(mask) >= UINT32_MAX / 2) then NoMem
                        else Ok
      ensures status == Ok ==> node.IsInserted() && nodes == old(nodes) + {node} && node !in old(nodes)
      ensures status == Ok ==> table == old(table) || fresh(table)
      ensures status != Ok ==> unchanged(this) && unchanged(table) && node.at == old(node.at)
                               && forall n {:trigger n.at} :: n in nodes ==> n.at == old(n.at)
      ensures old(Fresh()) && (node.hash == Fnv1a(node.key) || status != Ok) ==> Fresh()
    {
      hide Slot, IsPow2, Nearest, Flags, FlagsOf, Home, Fnv1a;
      assert node in nodes ==> node.IsInserted() by { if node in nodes { InsertedIsLinked(node); } }
      if node.IsInserted() { return Exists; }
      if count + 1 >= threshold && mask != UINT32_MAX {
        var ret := Resize(allocOk);
        if ret != Ok { return ret; }
      }
      var idx := Home(node.hash);
      TryRemake(idx, null);
      Enter(node, idx);
      return Ok;
    }

    /** The end of an insertion: the node joins its own bucket, which is initialised. */
    method Enter(node: Node, idx: nat)
      requires Valid() && node !in nodes && count + 1 < threshold
      requires idx == Home(node.hash) && table[idx].Made?
      modifies this`count, this`nodes, table, node`at
      ensures Valid() && node.IsInserted() && nodes == old(nodes) + {node}
    {
      hide Slot, IsPow2, Nearest, Flags, FlagsOf, Home, Filed;
      Push(node, idx);
      count := count + 1;
      assert count == |nodes|;
      FirstMade(Flags(), idx, mask + 1);
    }

    /** `ns_hashtbl_remove`; also what `ns_hashtbl_node_delete` does before it frees the node. */
    method Remove(node: Node)
      requires Valid() && (node in nodes || !node.IsInserted())
      modifies this`count, this`nodes, table, node`at
      ensures Valid() && !node.IsInserted() && nodes == old(nodes) - {node}
      ensures old(Fresh()) ==> Fresh()
    {
      hide Slot, IsPow2, Nearest, Flags, FlagsOf, Home, Fnv1a, Filed, Without, PlacedBut;
      assert node in nodes ==> node.IsInserted() by { if node in nodes { InsertedIsLinked(node); } }
      if node.IsInserted() { Leave(node); }
    }

    /** A linked node leaves; the others stay where they are. */
    method Leave(node: Node)
      requires Valid() && node in nodes
      modifies this`count, this`nodes, table, node`at
      ensures Valid() && !node.IsInserted() && nodes == old(nodes) - {node}
    {
      hide Slot, IsPow2, Nearest, Flags, FlagsOf, Home, Filed, Without;
      Unhook(node);
      count := count - 1;
    }

    lemma InsertedIsLinked(node: Node)
      requires Filed() && node in nodes
      ensures node.IsInserted()
    {
    }

    /** `_ns_hashtbl_find_list_head`: the list it leads to holds every linked node whose hash falls in that bucket. */
    method FindListHead(key: seq<byte>) returns (idx: nat)
      requires Valid()
      modifies this`nodes, table, nodes`at
      ensures Valid() && nodes == old(nodes) && idx < table.Length && table[idx].Made?
      ensures forall n :: n in table[idx].list ==> n in nodes
      ensures forall n :: n in nodes && n.hash == Fnv1a(key) ==> n in table[idx].list
    {
      hide Slot, IsPow2, Nearest, Flags, FlagsOf, Fnv1a;
      var h := HashOf(key);
      idx := Home(h);
      TryRemake(idx, null);
      InOwnBucket(idx);
    }

    lemma InOwnBucket(idx: nat)
      requires Valid() && idx <= mask && table[idx].Made?
      ensures forall n :: n in nodes && Home(n.hash) == idx ==> n in table[idx].list
    {
    }

    /** `ns_hashtbl_find`: succeeds exactly when a linked node has this key, although it may move nodes on the way. */
    method Find(key: seq<byte>) returns (status: Status, found: Node?)
      requires Valid() && Fresh()
      modifies this`nodes, table, nodes`at
      ensures Valid() && Fresh() && nodes == old(nodes)
      ensures status == if exists n :: n in nodes && n.key == key then Ok else Empty
      ensures if status == Ok then found != null && found in nodes && found.key == key else found == null
    {
      hide Slot, IsPow2, Nearest, Flags, FlagsOf, Fnv1a, Filed;
      var idx := FindListHead(key);
      var list := table[idx].list;
      var i := 0;
      while i < |list|
        invariant 0 <= i <= |list| && forall k :: 0 <= k < i ==> list[k].key != key
        modifies {}
      {
        if list[i].key == key { return Ok, list[i]; }
        i := i + 1;
      }
      return Empty, null;
    }

    /** `ns_hashtbl_node_key_refresh`, after the caller changed the key of this node. */
    method KeyRefresh(node: Node)
      requires Valid() && (node in nodes || !node.IsInserted())
      modifies this`nodes, table, nodes`at, node`at, node`hash
      ensures Valid() && nodes == old(nodes)
      ensures node.hash == Fnv1a(node.key) && (node.IsInserted() <==> node in nodes)
      ensures (forall n {:trigger n.key} :: n in nodes && n != node ==> n.hash == Fnv1a(n.key)) ==> Fresh()
    {
      hide Slot, IsPow2, Nearest, Flags, FlagsOf, Fnv1a, Home, Filed;
      assert node in nodes ==> node.IsInserted() by { if node in nodes { InsertedIsLinked(node); } }
      node.hash := HashOf(node.key);
      if node.IsInserted() {
        var idx := Home(node.hash);
        TryRemake(idx, node);
        ghost var flags := Flags();
        Refile(node, idx);
        assert Flags() == flags;
        FirstMade(Flags(), idx, mask + 1);
      }
    }

    /**
     `ns_hashtbl_node_renew`: a node with the same key and hash and room for another value length takes the very
     place of the old one. A failed allocation leaves everything as it was.
     */
    method Renew(node: Node, valueLen: nat, allocOk: bool) returns (renewed: Node?)
      requires Valid() && (node in nodes || !node.IsInserted())
      modifies this`nodes, table, node`at
      ensures Valid() && (old(Fresh()) ==> Fresh())
      ensures node.valueLen == valueLen ==> renewed == node
      ensures renewed == null <==> node.valueLen != valueLen && !allocOk
      ensures renewed == null || renewed == node ==> nodes == old(nodes) && unchanged(table) && unchanged(node)
      ensures renewed != null && renewed != node ==>
                && fresh(renewed) && renewed.key == node.key && renewed.hash == node.hash
                && renewed.valueLen == valueLen
                && !node.IsInserted()
                && (if old(node.IsInserted())
                    then renewed.at == old(node.at) && nodes == old(nodes) - {node} + {renewed}
                         && 0 <= old(node.at) < table.Length && old(table[node.at].Made?)
                         && table[..] == old(table[..])[old(node.at) :=
                              Made(Swapped(old(table[node.at].list), node, renewed))]
                    else !renewed.IsInserted() && nodes == old(nodes) && unchanged(table))
    {
      hide Slot, IsPow2, Nearest, Flags, FlagsOf, Home, Fnv1a, Filed, Swapped;
      assert node in nodes ==> node.IsInserted() by { if node in nodes { InsertedIsLinked(node); } }
      if node.valueLen == valueLen { return node; }
      if !allocOk { return null; }
      var n := new Node(node.key, node.hash, valueLen);
      if node.IsInserted() { Substitute(node, n); }
      return n;
    }

    /** Hooks n in behind the node and then takes the node out. */
    method Substitute(node: Node, n: Node)
      requires Filed() && node in nodes && n !in nodes
      modifies this`nodes, table, node`at, n`at
      ensures Filed() && nodes == old(nodes) - {node} + {n} && n.at == old(node.at) && node.at == -1
      ensures 0 <= old(node.at) < table.Length && old(table[node.at].Made?) && Flags() == old(Flags())
      ensures table[..] == old(table[..])[old(node.at) := Made(Swapped(old(table[node.at].list), node, n))]
    {
      var i := node.at;
      SwappedKeeps(table[i].list, node, n);
      table[i] := Made(Without(InsertedAfter(table[i].list, node, n), node));
      nodes := nodes - {node} + {n};
      n.at, node.at := i, -1;
    }

    /**
     `ns_hashtbl_create`: null for a load factor that is not a positive number, or when an allocation fails. The
     threshold is the load factor's share of the size, rounded down, and at least one and at most the size.
     */
    static method Create(minSize: nat, loadFactor: real, isNan: bool, allocTable: bool, allocBuckets: bool)
        returns (t: Table?)
      requires MinimumSize(minSize)
      ensures t == null <==> isNan || loadFactor <= 0.0 || !allocTable || !allocBuckets
      ensures t != null ==> fresh(t) && fresh(t.table) && t.Valid() && t.Fresh() && t.nodes == {}
      ensures t != null ==> t.mask + 1 == minSize && 1 <= t.threshold <= minSize
      ensures t != null ==> t.threshold as real <= minSize as real * loadFactor || t.threshold == 1
      ensures t != null ==> (t.threshold + 1) as real > minSize as real * loadFactor || t.threshold == minSize
    {
      hide IsPow2;
      if isNan || loadFactor <= 0.0 { return null; }
      var factor := if loadFactor > 1.0 then 1.0 else loadFactor;
      if !allocTable { return null; }
      ShareFits(minSize, factor, loadFactor);
      var threshold := (minSize as real * factor).Floor;
      if threshold == 0 { threshold := 1; }
      if !allocBuckets { return null; }
      t := new Table.New(minSize, threshold);
    }

    static lemma ShareFits(minSize: nat, factor: real, loadFactor: real)
      requires 0.0 < factor <= 1.0 && factor <= loadFactor
      ensures 0 <= (minSize as real * factor).Floor <= minSize
      ensures minSize as real * factor <= minSize as real * loadFactor
    {
      var n := minSize as real;
      NotNegative(n, factor);
      NotNegative(n, 1.0 - factor);
      assert n * (1.0 - factor) == n - n * factor;
      NotNegative(n, loadFactor - factor);
      assert n * (loadFactor - factor) == n * loadFactor - n * factor;
    }

    static lemma NotNegative(a: real, b: real)
      requires a >= 0.0 && b >= 0.0
      ensures a * b >= 0.0
    {
    }
  }
}
