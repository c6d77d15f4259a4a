/** The in-memory object store (drivers/local.go): a ring of slots per directory that serves as
    a bounded first-in, first-out map. */
module MemoryStore {
  import opened Base

  type Data = seq<int>

  const DATA_CACHE_LEN := 12

  /** A slot; an unused one has an empty name and no data. */
  datatype Item = Item(name: string, data: Option<Data>)

  const UNUSED := Item("", None)

  // ---------------------------------------------------------------- the bounded queue

  predicate HasName(q: seq<Item>, name: string) {
    exists i :: 0 <= i < |q| && q[i].name == name
  }

  function Replaced(q: seq<Item>, item: Item): (r: seq<Item>)
    ensures |r| == |q|
    ensures forall i :: 0 <= i < |q| ==> r[i] == if q[i].name == item.name then item else q[i]
  {
    seq(|q|, i requires 0 <= i < |q| => if q[i].name == item.name then item else q[i])
  }

  /** Insertion into the queue: a known name is updated in place, a new one goes to the end and
      displaces the oldest entry if there are `len` of them. */
  function Fifo(q: seq<Item>, item: Item, len: nat): seq<Item> {
    if HasName(q, item.name) then Replaced(q, item)
    else (if |q| >= len && q != [] then q[1..] else q) + [item]
  }

  function Find(q: seq<Item>, name: string): Option<Data> {
    if q == [] then None else if q[0].name == name then q[0].data else Find(q[1..], name)
  }

  ghost predicate DistinctNames(q: seq<Item>) {
    forall i, j :: 0 <= i < j < |q| ==> q[i].name != q[j].name
  }

  lemma {:induction false} FindIs(q: seq<Item>, i: nat)
    requires DistinctNames(q) && i < |q|
    ensures Find(q, q[i].name) == q[i].data
  {
    if i > 0 {
      FindIs(q[1..], i - 1);
    }
  }

  lemma {:induction false} FindNone(q: seq<Item>, name: string)
    requires !HasName(q, name)
    ensures Find(q, name) == None
  {
    if q != [] {
      FindNone(q[1..], name);
    }
  }

  lemma FifoKeepsDistinct(q: seq<Item>, item: Item, len: nat)
    requires DistinctNames(q)
    ensures DistinctNames(Fifo(q, item, len))
  {}

  function FifoAll(q: seq<Item>, items: seq<Item>, len: nat): seq<Item>
    decreases |items|
  {
    if items == [] then q else FifoAll(Fifo(q, items[0], len), items[1..], len)
  }

  lemma {:induction false} FifoAllAppend(q: seq<Item>, items: seq<Item>, item: Item, len: nat)
    ensures FifoAll(q, items + [item], len) == Fifo(FifoAll(q, items, len), item, len)
    decreases |items|
  {
    if items == [] {
    } else {
      assert (items + [item])[1..] == items[1..] + [item];
      FifoAllAppend(Fifo(q, items[0], len), items[1..], item, len);
    }
  }

  /** How many of the insertions bring a name that is not in the queue at that time. */
  function Displaced(q: seq<Item>, items: seq<Item>, len: nat): nat
    decreases |items|
  {
    if items == [] then 0
    else (if HasName(q, items[0].name) then 0 else 1) + Displaced(Fifo(q, items[0], len), items[1..], len)
  }

  lemma {:induction false} StaysAbsent(q: seq<Item>, items: seq<Item>, name: string, len: nat)
    requires !HasName(q, name)
    requires forall k :: 0 <= k < |items| ==> items[k].name != name
    ensures !HasName(FifoAll(q, items, len), name)
    decreases |items|
  {
    if items != [] {
      assert !HasName(Fifo(q, items[0], len), name);
      StaysAbsent(Fifo(q, items[0], len), items[1..], name, len);
    }
  }

  /** An entry with `i` older ones before it and room for `len - |q|` more behind survives any
      insertions under other names exactly as long as no more than that many bring a new name;
      updates in place displace nothing. */
  lemma {:induction false} EntrySurvives(q: seq<Item>, i: nat, items: seq<Item>, len: nat)
    requires DistinctNames(q) && i < |q| <= len
    requires forall k :: 0 <= k < |items| ==> items[k].name != q[i].name
    ensures Find(FifoAll(q, items, len), q[i].name) ==
              if Displaced(q, items, len) <= i + (len - |q|) then q[i].data else None
    decreases |items|
  {
    if items == [] {
      FindIs(q, i);
    } else {
      var item, name := items[0], q[i].name;
      var r := Fifo(q, item, len);
      if !HasName(q, item.name) && |q| == len && i == 0 {
        assert !HasName(r, name);
        StaysAbsent(r, items[1..], name, len);
        FindNone(FifoAll(r, items[1..], len), name);
      } else {
        FifoKeepsDistinct(q, item, len);
        var i' := if !HasName(q, item.name) && |q| == len then i - 1 else i;
        assert r[i'] == q[i];
        EntrySurvives(r, i', items[1..], len);
      }
    }
  }

  /** The position of a name, or the length of the queue. */
  function IndexOf(q: seq<Item>, name: string): (i: nat)
    ensures i <= |q| && (i < |q| <==> HasName(q, name)) && (i < |q| ==> q[i].name == name)
  {
    if q == [] then 0
    else if q[0].name == name then 0
    else
      assert HasName(q, name) <==> HasName(q[1..], name);
      1 + IndexOf(q[1..], name)
  }

  /** Just inserted data stays findable under the same condition; as the newest entry, for
      `len - 1` further new names. */
  lemma InsertedSurvives(q: seq<Item>, item: Item, items: seq<Item>, len: nat)
    requires DistinctNames(q) && |q| <= len && 0 < len
    requires forall k :: 0 <= k < |items| ==> items[k].name != item.name
    ensures var r := Fifo(q, item, len);
            && Find(FifoAll(r, items, len), item.name) ==
                 (if Displaced(r, items, len) <= IndexOf(r, item.name) + (len - |r|) then item.data else None)
            && (!HasName(q, item.name) ==> IndexOf(r, item.name) + (len - |r|) == len - 1)
  {
    var r := Fifo(q, item, len);
    FifoKeepsDistinct(q, item, len);
    FifoHolds(q, item, len);
    EntrySurvives(r, IndexOf(r, item.name), items, len);
  }

  lemma FifoHolds(q: seq<Item>, item: Item, len: nat)
    requires DistinctNames(q) && |q| <= len && 0 < len
    ensures var r := Fifo(q, item, len);
            var i := IndexOf(r, item.name);
            && i < |r| <= len && r[i] == item
            && (!HasName(q, item.name) ==> i == |r| - 1)
  {
    var r := Fifo(q, item, len);
    FifoKeepsDistinct(q, item, len);
    if HasName(q, item.name) {
      var j :| 0 <= j < |q| && q[j].name == item.name;
      assert r[j] == item;
    } else {
      assert r[|r| - 1] == item;
    }
  }

  // ---------------------------------------------------------------- the ring

  /** The used slots, oldest first, of a ring that is filled up to `next` or all round. */
  function QueueOf(c: seq<Item>, next: nat): seq<Item>
    requires next < |c|
  {
    if c[next].name == "" then c[..next] else c[next..] + c[..next]
  }

  /** Slots fill up in order; once the ring is full it stays full. */
  ghost predicate RingShape(c: seq<Item>, next: nat) {
    && next < |c|
    && (forall i :: 0 <= i < next ==> c[i].name != "")
    && (c[next].name == "" ==> forall i :: next <= i < |c| ==> c[i] == UNUSED)
    && (c[next].name != "" ==> forall i :: next <= i < |c| ==> c[i].name != "")
  }

  ghost predicate UniqueNames(c: seq<Item>) {
    forall i, j :: 0 <= i < j < |c| && c[i].name != "" ==> c[i].name != c[j].name
  }

  lemma QueueIsDistinct(c: seq<Item>, next: nat)
    requires RingShape(c, next) && UniqueNames(c)
    ensures DistinctNames(QueueOf(c, next))
    ensures |QueueOf(c, next)| <= |c|
    ensures forall i :: 0 <= i < |QueueOf(c, next)| ==> QueueOf(c, next)[i].name != ""
  {}

  lemma QueueHasName(c: seq<Item>, next: nat, name: string)
    requires RingShape(c, next) && name != ""
    ensures HasName(QueueOf(c, next), name) <==> HasName(c, name)
  {
    var q := QueueOf(c, next);
    if HasName(c, name) {
      var i :| 0 <= i < |c| && c[i].name == name;
      if c[next].name == "" {
        assert q[i].name == name;
      } else {
        assert q[if i >= next then i - next else i + (|c| - next)].name == name;
      }
    }
  }

  lemma ReplaceSlice(c: seq<Item>, lo: nat, hi: nat, item: Item)
    requires lo <= hi <= |c|
    ensures Replaced(c, item)[lo..hi] == Replaced(c[lo..hi], item)
  {}

  lemma ReplaceConcat(a: seq<Item>, b: seq<Item>, item: Item)
    ensures Replaced(a, item) + Replaced(b, item) == Replaced(a + b, item)
  {}

  lemma ReplaceKeepsShape(c: seq<Item>, next: nat, item: Item)
    requires RingShape(c, next) && item.name != ""
    ensures RingShape(Replaced(c, item), next)
    ensures Replaced(c, item)[next].name == "" <==> c[next].name == ""
  {}

  lemma ReplaceInRing(c: seq<Item>, next: nat, item: Item)
    requires RingShape(c, next) && item.name != ""
    ensures QueueOf(Replaced(c, item), next) == Replaced(QueueOf(c, next), item)
  {
    ReplaceKeepsShape(c, next, item);
    var r := Replaced(c, item);
    assert r[..next] == Replaced(c[..next], item) by { ReplaceSlice(c, 0, next, item); }
    assert r[next..] == Replaced(c[next..], item) by { ReplaceSlice(c, next, |c|, item); }
    if c[next].name != "" {
      ReplaceConcat(c[next..], c[..next], item);
    }
  }

  lemma InsertInRing(c: seq<Item>, next: nat, item: Item)
    requires RingShape(c, next) && item.name != "" && !HasName(c, item.name)
    ensures var next' := if next + 1 == |c| then 0 else next + 1;
            && RingShape(c[next := item], next')
            && QueueOf(c[next := item], next') == Fifo(QueueOf(c, next), item, |c|)
  {
    QueueHasName(c, next, item.name);
    var next' := if next + 1 == |c| then 0 else next + 1;
    var r := c[next := item];
    var q := QueueOf(c, next);
    if next' == 0 {
      assert QueueOf(r, 0) == r;
      if c[next].name != "" { assert q[1..] == c[..next]; }
    } else if c[next].name == "" {
      assert QueueOf(r, next') == c[..next] + [item];
    } else {
      assert QueueOf(r, next') == c[next + 1..] + (c[..next] + [item]);
      assert q[1..] == c[next + 1..] + c[..next];
    }
  }

  class DataCache {
    const cache: array<Item>
    var nextFree: nat

    ghost predicate Valid()
      reads this, cache
    {
      RingShape(cache[..], nextFree) && UniqueNames(cache[..])
    }

    ghost function Queue(): seq<Item>
      requires Valid()
      reads this, cache
    {
      QueueOf(cache[..], nextFree)
    }

    constructor (len: nat)
      requires len > 0
      ensures Valid() && Queue() == [] && fresh(cache) && cache.Length == len
    {
      cache := new Item[len](_ => UNUSED);
      nextFree := 0;
    }

    method Insert(name: string, data: Data)
      requires Valid() && name != ""
      modifies this, cache
      ensures Valid()
      ensures Queue() == Fifo(old(Queue()), Item(name, Some(data)), cache.Length)
    {
      ghost var c := cache[..];
      ghost var item := Item(name, Some(data));
      QueueHasName(c, nextFree, name);
      for i := 0 to cache.Length
        invariant cache[..] == c && nextFree == old(nextFree)
        invariant forall j :: 0 <= j < i ==> c[j].name != name
      {
        if cache[i].name == name {
          ReplaceKeepsShape(c, nextFree, item);
          ReplaceInRing(c, nextFree, item);
          assert c[i].name == name;
          cache[i] := Item(name, Some(data));
          assert cache[..] == Replaced(c, item);
          return;
        }
      }
      InsertInRing(c, nextFree, item);
      cache[nextFree] := Item(name, Some(data));
      assert cache[..] == c[nextFree := item];
      nextFree := nextFree + 1;
      if nextFree >= cache.Length {
        nextFree := 0;
      }
    }

    method GetData(name: string) returns (r: Option<Data>)
      requires Valid()
      ensures r == Find(Queue(), name)
    {
      ghost var c := cache[..];
      for i := 0 to cache.Length
        invariant forall j :: 0 <= j < i ==> c[j].name != name
      {
        if cache[i].name == name {
          r := cache[i].data;
          FindInRing(c, nextFree, i);
          return;
        }
      }
      assert !HasName(Queue(), name) by {
        if name != "" { QueueHasName(c, nextFree, name); }
      }
      FindNone(Queue(), name);
      r := None;
    }
  }

  lemma FindInRing(c: seq<Item>, next: nat, i: nat)
    requires RingShape(c, next) && UniqueNames(c) && i < |c|
    ensures Find(QueueOf(c, next), c[i].name) == c[i].data
  {
    var q := QueueOf(c, next);
    QueueIsDistinct(c, next);
    if c[i].name == "" {
      FindNone(q, "");
    } else if c[next].name == "" {
      FindIs(q, i);
    } else {
      var k := if i >= next then i - next else i + (|c| - next);
      FindIs(q, k);
    }
  }

  // ---------------------------------------------------------------- the session

  /** Index just after the last slash. */
  function AfterSlash(path: string): (k: nat)
    ensures k <= |path|
    ensures forall i :: k <= i < |path| ==> path[i] != '/'
    ensures k > 0 ==> path[k - 1] == '/'
  {
    if path == [] then 0
    else if path[|path| - 1] == '/' then |path|
    else AfterSlash(path[..|path| - 1])
  }

  function Dir(path: string): string { path[..AfterSlash(path)] }

  function File(path: string): string { path[AfterSlash(path)..] }

  function TrimPrefix(s: string, prefix: string): string {
    if prefix <= s then s[|prefix|..] else s
  }

  /** `clean` stands for the library's path normalisation; any function will do. */
  class MemorySession {
    const path: string
    const baseURI: string
    const clean: string -> string
    var ended: bool
    var dCache: map<string, DataCache>

    ghost var repr: set<object>

    ghost predicate Valid()
      reads this, repr
    {
      && this !in repr
      && (forall d :: d in dCache ==> dCache[d] in repr && dCache[d].cache in repr)
      && (forall d :: d in dCache ==> dCache[d].Valid() && dCache[d].cache.Length == DATA_CACHE_LEN)
      && (forall d, e :: d in dCache && e in dCache && d != e ==>
            dCache[d] != dCache[e] && dCache[d].cache != dCache[e].cache)
    }

    /** What a directory holds, oldest entry first. */
    ghost function Contents(dir: string): seq<Item>
      requires Valid()
      reads this, repr
    {
      if dir in dCache then dCache[dir].Queue() else []
    }

    constructor (path: string, baseURI: string, clean: string -> string)
      ensures Valid() && !ended && forall d :: Contents(d) == []
    {
      this.path, this.baseURI, this.clean := path, baseURI, clean;
      ended, dCache, repr := false, map[], {};
    }

    function AbsolutePath(name: string): string { clean(path + "/" + name) }

    function Prefix(): string { baseURI + "/stream/" }

    function AbsoluteURI(name: string): string { baseURI + ("/stream/" + AbsolutePath(name)) }

    method EndSession()
      requires Valid()
      modifies this
      ensures Valid() && ended && forall d :: Contents(d) == []
    {
      ended := true;
      dCache := map[];
    }

    method CacheFor(dir: string) returns (dc: DataCache)
      requires Valid()
      modifies this`dCache, this`repr
      ensures Valid() && dir in dCache && dc == dCache[dir]
      ensures fresh(repr - old(repr))
      ensures forall d :: Contents(d) == old(Contents(d))
    {
      if dir !in dCache {
        dc := new DataCache(DATA_CACHE_LEN);
        dCache := dCache[dir := dc];
        repr := repr + {dc, dc.cache};
      } else {
        dc := dCache[dir];
      }
    }

    /** Saves under the cleaned path and returns its address. Other directories keep what they
        hold. The file name must not be empty. */
    method SaveData(name: string, data: Data) returns (uri: Option<string>)
      requires Valid() && File(AbsolutePath(name)) != ""
      modifies this`dCache, this`repr, repr
      ensures Valid() && fresh(repr - old(repr))
      ensures uri == if ended then None else Some(AbsoluteURI(name))
      ensures !ended ==> uri == Some(baseURI + ("/stream/" + clean(path + "/" + name)))
      ensures var abs := AbsolutePath(name);
              Contents(Dir(abs)) == if ended then old(Contents(Dir(abs)))
                                    else Fifo(old(Contents(Dir(abs))), Item(File(abs), Some(data)), DATA_CACHE_LEN)
      ensures forall d :: d != Dir(AbsolutePath(name)) ==> Contents(d) == old(Contents(d))
    {
      if ended {
        return None;
      }
      var abs := AbsolutePath(name);
      var dc := CacheFor(Dir(abs));
      dc.Insert(File(abs), data);
      uri := Some(AbsoluteURI(name));
    }

    method GetData(name: string) returns (r: Option<Data>)
      requires Valid()
      ensures r == Find(Contents(Dir(TrimPrefix(name, Prefix()))), File(TrimPrefix(name, Prefix())))
    {
      var p := TrimPrefix(name, Prefix());
      if Dir(p) in dCache {
        r := dCache[Dir(p)].GetData(File(p));
      } else {
        r := None;
      }
    }

    /** The address returned by `SaveData` leads back to the path the data was saved under. */
    lemma AddressLeadsBack(name: string)
      ensures TrimPrefix(AbsoluteURI(name), Prefix()) == AbsolutePath(name)
    {}

    /** A name that is no address is taken for a path. */
    lemma PathsAreKept(name: string, rest: string)
      ensures !(baseURI + "/stream/" <= name) ==> TrimPrefix(name, Prefix()) == name
      ensures TrimPrefix(baseURI + "/stream/" + rest, Prefix()) == rest
    {}

    /** What was saved is read back through the returned address. */
    method SaveThenRead(name: string, data: Data) returns (r: Option<Data>)
      requires Valid() && File(AbsolutePath(name)) != ""
      modifies this`dCache, this`repr, repr
      ensures Valid() && fresh(repr - old(repr))
      ensures !ended ==> r == Some(data)
    {
      var uri := SaveData(name, data);
      if uri.None? {
        return None;
      }
      AddressLeadsBack(name);
      r := GetData(uri.value);
      var abs := AbsolutePath(name);
      FindInserted(old(Contents(Dir(abs))), Item(File(abs), Some(data)), DATA_CACHE_LEN);
    }

    /** What a series of saves puts into one directory. */
    ghost function SavedTo(dir: string, saves: seq<Save>): (items: seq<Item>)
      ensures |items| <= |saves|
    {
      if saves == [] then []
      else
        var n := |saves| - 1;
        var abs := AbsolutePath(saves[n].name);
        if Dir(abs) == dir then SavedTo(dir, saves[..n]) + [Item(File(abs), Some(saves[n].data))]
        else SavedTo(dir, saves[..n])
    }

    lemma {:induction false} SavedElsewhere(path: string, saves: seq<Save>)
      requires forall i :: 0 <= i < |saves| ==> AbsolutePath(saves[i].name) != path
      ensures forall k :: 0 <= k < |SavedTo(Dir(path), saves)| ==> SavedTo(Dir(path), saves)[k].name != File(path)
    {
      if saves != [] {
        var n := |saves| - 1;
        SavedElsewhere(path, saves[..n]);
        var abs := AbsolutePath(saves[n].name);
        assert abs == Dir(abs) + File(abs) && path == Dir(path) + File(path);
      }
    }

    lemma SavedOneMore(q: seq<Item>, dir: string, saves: seq<Save>)
      requires saves != []
      ensures var n := |saves| - 1;
              var abs := AbsolutePath(saves[n].name);
              var before := FifoAll(q, SavedTo(dir, saves[..n]), DATA_CACHE_LEN);
              FifoAll(q, SavedTo(dir, saves), DATA_CACHE_LEN) ==
                if Dir(abs) == dir then Fifo(before, Item(File(abs), Some(saves[n].data)), DATA_CACHE_LEN) else before
    {
      var n := |saves| - 1;
      var abs := AbsolutePath(saves[n].name);
      FifoAllAppend(q, SavedTo(dir, saves[..n]), Item(File(abs), Some(saves[n].data)), DATA_CACHE_LEN);
    }

    /** A series of saves updates a directory's queue, whichever one is looked at, in order. */
    method SaveAll(saves: seq<Save>, ghost dir: string)
      requires Valid() && !ended
      requires forall i :: 0 <= i < |saves| ==> File(AbsolutePath(saves[i].name)) != ""
      modifies this`dCache, this`repr, repr
      ensures Valid() && fresh(repr - old(repr))
      ensures Contents(dir) == FifoAll(old(Contents(dir)), SavedTo(dir, saves), DATA_CACHE_LEN)
    {
      if saves != [] {
        var n := |saves| - 1;
        SaveAll(saves[..n], dir);
        var uri := SaveData(saves[n].name, saves[n].data);
        SavedOneMore(old(Contents(dir)), dir, saves);
      }
    }

    /** A saved file stays readable through its address while other files are saved, exactly as
        long as those saved beside it bring no more new names than there were older files and
        free slots. A new file makes room for eleven. */
    method StaysReadable(save: Save, others: seq<Save>) returns (r: Option<Data>)
      requires Valid() && !ended
      requires File(AbsolutePath(save.name)) != ""
      requires forall i :: 0 <= i < |others| ==>
                 File(AbsolutePath(others[i].name)) != "" && AbsolutePath(others[i].name) != AbsolutePath(save.name)
      modifies this`dCache, this`repr, repr
      ensures Valid()
      ensures var abs := AbsolutePath(save.name);
              var q := Fifo(old(Contents(Dir(abs))), Item(File(abs), Some(save.data)), DATA_CACHE_LEN);
              var news := Displaced(q, SavedTo(Dir(abs), others), DATA_CACHE_LEN);
              && r == (if news <= IndexOf(q, File(abs)) + (DATA_CACHE_LEN - |q|) then Some(save.data) else None)
              && (!HasName(old(Contents(Dir(abs))), File(abs)) ==> (r == Some(save.data) <==> news < DATA_CACHE_LEN))
    {
      var abs := AbsolutePath(save.name);
      ghost var q := Contents(Dir(abs));
      ContentsFit(Dir(abs));
      var uri := SaveData(save.name, save.data);
      SaveAll(others, Dir(abs));
      AddressLeadsBack(save.name);
      SavedElsewhere(abs, others);
      InsertedSurvives(q, Item(File(abs), Some(save.data)), SavedTo(Dir(abs), others), DATA_CACHE_LEN);
      r := GetData(uri.value);
    }

    lemma ContentsFit(dir: string)
      requires Valid()
      ensures DistinctNames(Contents(dir)) && |Contents(dir)| <= DATA_CACHE_LEN
    {
      if dir in dCache {
        QueueIsDistinct(dCache[dir].cache[..], dCache[dir].nextFree);
      }
    }
  }

  datatype Save = Save(name: string, data: Data)

  lemma FindInserted(q: seq<Item>, item: Item, len: nat)
    ensures Find(Fifo(q, item, len), item.name) == item.data
  {
    if HasName(q, item.name) {
      FindReplaced(q, item);
    } else {
      var kept := if |q| >= len && q != [] then q[1..] else q;
      FindLast(kept, item);
    }
  }

  lemma {:induction false} FindReplaced(q: seq<Item>, item: Item)
    requires HasName(q, item.name)
    ensures Find(Replaced(q, item), item.name) == item.data
  {
    if q[0].name != item.name {
      assert Replaced(q, item)[1..] == Replaced(q[1..], item);
      FindReplaced(q[1..], item);
    }
  }

  lemma {:induction false} FindLast(q: seq<Item>, item: Item)
    requires !HasName(q, item.name)
    ensures Find(q + [item], item.name) == item.data
  {
    if q != [] {
      assert (q + [item])[1..] == q[1..] + [item];
      FindLast(q[1..], item);
    }
  }
}
