/** The learned-MAC table: a list with a hash index of chained positions, rebuilt in place. */
module MacIndex {
  const MAX_ENTRIES: nat := 256
  const BUCKETS: nat := 256

  /** Six bytes; the index hashes on the last one. */
  datatype Mac = Mac(b0: nat, b1: nat, b2: nat, b3: nat, b4: nat, b5: nat)
  datatype Entry = Entry(mac: Mac, ifname: string)

  predicate MacOk(m: Mac) {
    m.b5 < BUCKETS
  }

  predicate EntriesOk(es: seq<Entry>) {
    |es| <= MAX_ENTRIES && forall i :: 0 <= i < |es| ==> MacOk(es[i].mac)
  }

  predicate Unique(es: seq<Entry>) {
    forall i, j :: 0 <= i < j < |es| ==> es[i].mac != es[j].mac
  }

  /** The specification of lookup: a linear scan. */
  function ScanFor(es: seq<Entry>, mac: Mac): (i: int)
    ensures -1 <= i < |es|
    ensures i >= 0 ==> es[i].mac == mac
    ensures i == -1 ==> forall k :: 0 <= k < |es| ==> es[k].mac != mac
  {
    if |es| == 0 then -1
    else if es[|es| - 1].mac == mac then |es| - 1
    else ScanFor(es[..|es| - 1], mac)
  }

  function ScanIf(es: seq<Entry>, ifname: string, n: nat): (i: int)
    requires n <= |es|
    ensures -1 <= i < n
    ensures i >= 0 ==> es[i].ifname == ifname && forall k :: 0 <= k < i ==> es[k].ifname != ifname
    ensures i == -1 ==> forall k :: 0 <= k < n ==> es[k].ifname != ifname
  {
    if n == 0 then -1
    else
      var r := ScanIf(es, ifname, n - 1);
      if r >= 0 then r else if es[n - 1].ifname == ifname then n - 1 else -1
  }

  /** The last of the first `n` entries that falls into bucket `b`, or -1. */
  function LastIn(es: seq<Entry>, b: nat, n: nat): (i: int)
    requires n <= |es|
    ensures -1 <= i < n
    ensures i >= 0 ==> es[i].mac.b5 == b
    ensures forall k :: i < k < n ==> es[k].mac.b5 != b
  {
    if n == 0 then -1 else if es[n - 1].mac.b5 == b then n - 1 else LastIn(es, b, n - 1)
  }

  datatype Learned = Refresh | New | Move

  /** `upsert_locked` on the list. */
  function Upserted(es: seq<Entry>, ifname: string, mac: Mac): (seq<Entry>, Learned) {
    var m := ScanFor(es, mac);
    var f := ScanIf(es, ifname, |es|);
    if m >= 0 then
      if es[m].ifname == ifname then (es, Refresh) else (es[m := Entry(mac, ifname)], Move)
    else if f >= 0 then (es[f := Entry(mac, ifname)], Refresh)
    else if |es| >= MAX_ENTRIES then (es, Refresh)
    else (es + [Entry(mac, ifname)], New)
  }

  function Kept(es: seq<Entry>, keep: Entry -> bool): (r: seq<Entry>)
    ensures |r| <= |es|
  {
    if |es| == 0 then []
    else Kept(es[..|es| - 1], keep) + (if keep(es[|es| - 1]) then [es[|es| - 1]] else [])
  }

  /** Replace the first entry of the same interface name, or append. */
  function Merged(r: seq<Entry>, e: Entry): (m: seq<Entry>)
    ensures |m| <= |r| + 1
  {
    var i := ScanIf(r, e.ifname, |r|);
    if i >= 0 then r[i := e] else r + [e]
  }

  /** One entry per interface name, in order of first appearance; the last MAC wins. */
  function Collapsed(es: seq<Entry>): (r: seq<Entry>)
    ensures |r| <= |es|
  {
    if |es| == 0 then [] else Merged(Collapsed(es[..|es| - 1]), es[|es| - 1])
  }

  class Table {
    const list: array<Entry>
    var count: nat
    const head: array<int>
    const next: array<int>

    ghost predicate Shape()
      reads this
    {
      && list.Length == MAX_ENTRIES && head.Length == BUCKETS && next.Length == MAX_ENTRIES
      && list as object != head && list as object != next && head != next && count <= MAX_ENTRIES
    }

    ghost function Entries(): seq<Entry>
      requires Shape()
      reads this, list
    {
      list[..count]
    }

    /** Every chain is exactly its bucket's positions, strictly decreasing. */
    ghost predicate Indexed()
      requires Shape()
      reads this, list, head, next
    {
      && (forall b :: 0 <= b < BUCKETS ==> head[b] == LastIn(list[..count], b, count))
      && (forall i :: 0 <= i < count ==> next[i] == LastIn(list[..count], list[i].mac.b5, i))
    }

    ghost predicate Valid()
      reads this, list, head, next
    {
      Shape() && EntriesOk(Entries()) && Unique(Entries()) && Indexed()
    }

    constructor ()
      ensures Valid() && Entries() == [] && fresh(list) && fresh(head) && fresh(next)
    {
      list := new Entry[MAX_ENTRIES](i => Entry(Mac(0, 0, 0, 0, 0, 0), ""));
      head := new int[BUCKETS](i => -1);
      next := new int[MAX_ENTRIES](i => -1);
      count := 0;
    }

    /** `hash_rebuild_locked` */
    method Rebuild()
      requires Shape() && EntriesOk(Entries())
      modifies head, next
      ensures Shape() && Entries() == old(Entries()) && Indexed()
    {
      hide LastIn;
      forall b | 0 <= b < BUCKETS { head[b] := -1; }
      forall i | 0 <= i < MAX_ENTRIES { next[i] := -1; }
      ghost var es := list[..count];
      for i := 0 to count
        modifies head, next
        invariant list[..count] == es
        invariant forall b :: 0 <= b < BUCKETS ==> head[b] == LastIn(es, b, i)
        invariant forall k :: 0 <= k < i ==> next[k] == LastIn(es, es[k].mac.b5, k)
      {
        assert es[i] == list[i] && MacOk(es[i].mac);
        var b := list[i].mac.b5;
        next[i] := head[b];
        head[b] := i;
        forall c: nat | c < BUCKETS ensures head[c] == LastIn(es, c, i + 1) {
          LastInStep(es, c, i);
        }
      }
    }

    /** `find_idx_by_mac_locked`: following the chain finds what a linear scan finds. */
    method Find(mac: Mac) returns (idx: int)
      requires Valid() && MacOk(mac)
      ensures idx == ScanFor(Entries(), mac)
    {
      hide LastIn, ScanFor, Unique;
      ghost var es := Entries();
      var i := head[mac.b5];
      while i >= 0
        invariant i < count && -1 <= i
        invariant i >= 0 ==> es[i].mac.b5 == mac.b5
        invariant forall k :: i < k < count ==> es[k].mac != mac
        decreases i
      {
        assert list[i] == es[i];
        if list[i].mac == mac {
          ScanUnique(es, mac, i);
          return i;
        }
        i := next[i];
      }
      idx := -1;
    }

    method FindIf(ifname: string) returns (idx: int)
      requires Valid()
      ensures idx == ScanIf(Entries(), ifname, |Entries()|)
    {
      ghost var es := Entries();
      for i := 0 to count
        invariant ScanIf(es, ifname, i) == -1
      {
        assert list[i] == es[i];
        if list[i].ifname == ifname {
          ScanIfStops(es, ifname, i, |es|);
          return i;
        }
      }
      idx := -1;
    }

    /** Rename the interface of a known MAC; the chains stay as they are. */
    method Rename(m: nat, ifname: string)
      requires Valid() && m < count
      modifies list
      ensures Valid() && Entries() == old(Entries())[m := Entry(old(Entries())[m].mac, ifname)]
    {
      hide LastIn;
      ghost var es := Entries();
      ghost var e := Entry(list[m].mac, ifname);
      list[m] := Entry(list[m].mac, ifname);
      assert Entries() == es[m := e];
      RenameKeepsIndex(es, m, e);
    }

    /** Write a MAC into a used slot or the first unused one and rebuild the chains. */
    method Write(f: nat, e: Entry)
      requires Valid() && f <= count && f < MAX_ENTRIES && MacOk(e.mac)
      requires ScanFor(Entries(), e.mac) == -1
      modifies this, list, head, next
      ensures Valid()
      ensures Entries() == if f < old(count) then old(Entries())[f := e] else old(Entries()) + [e]
    {
      hide LastIn, ScanFor, Indexed;
      ghost var es := Entries();
      list[f] := e;
      if f == count {
        count := count + 1;
        assert Entries() == es + [e];
      } else {
        assert Entries() == es[f := e];
      }
      Rebuild();
    }

    /** `upsert_locked`: learn a MAC on an interface. */
    method Upsert(ifname: string, mac: Mac) returns (r: Learned)
      requires Valid() && MacOk(mac)
      modifies this, list, head, next
      ensures Valid() && (Entries(), r) == Upserted(old(Entries()), ifname, mac)
    {
      hide LastIn, ScanFor, ScanIf, Unique, Indexed, EntriesOk;
      ghost var es := Entries();
      var m := Find(mac);
      var f := FindIf(ifname);
      if m >= 0 {
        assert list[m] == es[m];
        if list[m].ifname == ifname {
          return Refresh;
        }
        Rename(m, ifname);
        return Move;
      }
      if f >= 0 {
        assert list[f] == es[f];
        Write(f, Entry(mac, list[f].ifname));
        return Refresh;
      }
      if count >= MAX_ENTRIES {
        return Refresh;
      }
      Write(count, Entry(mac, ifname));
      r := New;
    }

    /** The compaction loop of `purge_local_iface_macs_locked` and `table_purge_orphan_locked`: keep the
        entries that pass the test, in order. */
    method Purge(keep: Entry -> bool) returns (purged: nat)
      requires Valid()
      modifies this, list, head, next
      ensures Valid() && Entries() == Kept(old(Entries()), keep)
      ensures purged == |old(Entries())| - |Entries()|
    {
      hide LastIn, Kept, Unique;
      ghost var es := Entries();
      var w := Compact(keep);
      KeptUnique(es, keep);
      purged := count - w;
      if w != count {
        count := w;
        Rebuild();
      }
    }

    method Compact(keep: Entry -> bool) returns (w: nat)
      requires Shape()
      modifies list
      ensures w <= count && list[..w] == Kept(old(Entries()), keep)
      ensures w == count ==> Entries() == old(Entries())
    {
      hide Kept;
      ghost var es := Entries();
      w := 0;
      KeptEmpty(es[..0], keep);
      for i := 0 to count
        modifies list
        invariant Shape() && w <= i
        invariant list[..w] == Kept(es[..i], keep)
        invariant forall k :: i <= k < count ==> list[k] == es[k]
        invariant w == i ==> list[..count] == es
      {
        KeptStep(es, keep, i);
        if keep(list[i]) {
          if w != i {
            list[w] := list[i];
          }
          assert list[..w + 1] == list[..w] + [es[i]];
          w := w + 1;
        }
      }
      assert es[..|es|] == es;
    }

    /** `enforce_one_mac_per_ifname_locked` */
    method EnforceOnePerIf()
      requires Valid()
      modifies this, list, head, next
      ensures Valid() && Entries() == Collapsed(old(Entries()))
    {
      hide LastIn, Collapsed, Unique, Indexed;
      ghost var es := Entries();
      var tmp := Collapse();
      if |tmp| != count {
        forall k | 0 <= k < |tmp| { list[k] := tmp[k]; }
        count := |tmp|;
        assert Entries() == tmp;
        CollapsedUnique(es);
        Rebuild();
      } else {
        CollapsedSame(es);
      }
    }

    method Collapse() returns (tmp: seq<Entry>)
      requires Shape()
      ensures tmp == Collapsed(Entries())
    {
      hide Collapsed, ScanIf;
      ghost var es := Entries();
      tmp := [];
      CollapsedEmpty(es[..0]);
      for i := 0 to count
        invariant tmp == Collapsed(es[..i])
      {
        assert es[..i + 1][..i] == es[..i];
        CollapsedStep(es[..i + 1]);
        var idx := Holder(tmp, list[i].ifname);
        if idx >= 0 {
          tmp := tmp[idx := list[i]];
        } else {
          tmp := tmp + [list[i]];
        }
      }
      assert es[..|es|] == es;
    }
  }

  /** The inner loop of the collapse: the first entry of an interface. */
  method Holder(es: seq<Entry>, ifname: string) returns (idx: int)
    ensures idx == ScanIf(es, ifname, |es|)
  {
    for j := 0 to |es|
      invariant ScanIf(es, ifname, j) == -1
    {
      if es[j].ifname == ifname {
        ScanIfStops(es, ifname, j, |es|);
        return j;
      }
    }
    idx := -1;
  }

  /* ---- properties of the list operations ---- */

  lemma {:induction false} ScanUnique(es: seq<Entry>, mac: Mac, i: nat)
    requires i < |es| && es[i].mac == mac && forall k :: i < k < |es| ==> es[k].mac != mac
    ensures ScanFor(es, mac) == i
  {
    if i < |es| - 1 {
      ScanUnique(es[..|es| - 1], mac, i);
    }
  }

  lemma {:induction false} ScanIfStops(es: seq<Entry>, ifname: string, i: nat, n: nat)
    requires i < n <= |es| && es[i].ifname == ifname && ScanIf(es, ifname, i) == -1
    ensures ScanIf(es, ifname, n) == i
  {
    if i < n - 1 {
      ScanIfStops(es, ifname, i, n - 1);
    }
  }

  lemma LastInStep(es: seq<Entry>, b: nat, n: nat)
    requires n < |es|
    ensures LastIn(es, b, n + 1) == if es[n].mac.b5 == b then n else LastIn(es, b, n)
  {
  }

  /** Changing an interface name does not disturb the chains. */
  lemma {:induction false} LastInSame(es: seq<Entry>, fs: seq<Entry>, b: nat, n: nat)
    requires n <= |es| == |fs| && forall k :: 0 <= k < |es| ==> es[k].mac == fs[k].mac
    ensures LastIn(es, b, n) == LastIn(fs, b, n)
  {
    if n > 0 {
      LastInSame(es, fs, b, n - 1);
    }
  }

  lemma RenameKeepsIndex(es: seq<Entry>, m: nat, e: Entry)
    requires m < |es| && es[m].mac == e.mac
    ensures forall b: nat, n: nat :: n <= |es| ==> LastIn(es[m := e], b, n) == LastIn(es, b, n)
  {
    forall b: nat, n: nat | n <= |es| ensures LastIn(es[m := e], b, n) == LastIn(es, b, n) {
      LastInSame(es[m := e], es, b, n);
    }
  }

  lemma KeptEmpty(es: seq<Entry>, keep: Entry -> bool)
    requires |es| == 0
    ensures Kept(es, keep) == []
  {
  }

  lemma KeptStep(es: seq<Entry>, keep: Entry -> bool, i: nat)
    requires i < |es|
    ensures Kept(es[..i + 1], keep) == Kept(es[..i], keep) + (if keep(es[i]) then [es[i]] else [])
  {
    assert es[..i + 1][..i] == es[..i];
  }

  lemma {:induction false} KeptMembers(es: seq<Entry>, keep: Entry -> bool, k: nat) returns (i: nat)
    requires k < |Kept(es, keep)|
    ensures i < |es| && es[i] == Kept(es, keep)[k] && keep(es[i])
    ensures k <= i
  {
    var n := |es| - 1;
    if k < |Kept(es[..n], keep)| {
      i := KeptMembers(es[..n], keep, k);
    } else {
      i := n;
    }
  }

  lemma {:induction false} KeptUnique(es: seq<Entry>, keep: Entry -> bool)
    requires Unique(es) && EntriesOk(es)
    ensures Unique(Kept(es, keep)) && EntriesOk(Kept(es, keep))
  {
    if |es| > 0 {
      var n := |es| - 1;
      KeptUnique(es[..n], keep);
      var r := Kept(es[..n], keep);
      forall k | 0 <= k < |r| ensures r[k].mac != es[n].mac {
        var i := KeptMembers(es[..n], keep, k);
      }
    }
  }

  /** What survives a purge are exactly the entries that pass the test. */
  lemma {:induction false} KeptExactly(es: seq<Entry>, keep: Entry -> bool, e: Entry)
    ensures e in Kept(es, keep) <==> e in es && keep(e)
  {
    if |es| > 0 {
      var n := |es| - 1;
      KeptExactly(es[..n], keep, e);
      assert es == es[..n] + [es[n]];
    }
  }

  predicate OnePerIf(r: seq<Entry>) {
    forall i, j :: 0 <= i < j < |r| ==> r[i].ifname != r[j].ifname
  }

  /** `e` is the last entry of `es` that bears its interface name. */
  predicate LatestIn(es: seq<Entry>, e: Entry)
    decreases |es|
  {
    |es| > 0 && (es[|es| - 1] == e || (es[|es| - 1].ifname != e.ifname && LatestIn(es[..|es| - 1], e)))
  }

  lemma {:induction false} LatestIff(es: seq<Entry>, e: Entry)
    ensures LatestIn(es, e) <==> (exists i :: 0 <= i < |es| && LastAt(es, e, i))
  {
    if |es| > 0 {
      var n := |es| - 1;
      LatestIff(es[..n], e);
      if LatestIn(es, e) {
        if es[n] == e {
          assert LastAt(es, e, n);
        } else {
          var i :| 0 <= i < n && LastAt(es[..n], e, i);
          assert LastAt(es, e, i);
        }
      }
      if i :| 0 <= i < |es| && LastAt(es, e, i) && i < n {
        assert es[..n][i] == es[i] && es[n].ifname != e.ifname;
        assert LastAt(es[..n], e, i);
      }
    }
  }

  predicate LastAt(es: seq<Entry>, e: Entry, i: nat)
    requires i < |es|
  {
    es[i] == e && forall j :: i < j < |es| ==> es[j].ifname != e.ifname
  }

  /** After enforcement no interface name has two entries. */
  lemma {:induction false} CollapsedOnePerIf(es: seq<Entry>)
    ensures OnePerIf(Collapsed(es))
  {
    if |es| > 0 {
      CollapsedOnePerIf(es[..|es| - 1]);
    }
  }

  lemma {:induction false} CollapsedLatest(es: seq<Entry>, e: Entry)
    ensures e in Collapsed(es) <==> LatestIn(es, e)
  {
    hide Collapsed, OnePerIf, ScanIf;
    if |es| == 0 {
      CollapsedEmpty(es);
    } else {
      var n := |es| - 1;
      CollapsedLatest(es[..n], e);
      CollapsedOnePerIf(es[..n]);
      CollapsedStep(es);
      MergedIff(Collapsed(es[..n]), es[n], e);
    }
  }

  /** An entry survives exactly when it stands somewhere with no later entry of its interface name. */
  lemma CollapsedIff(es: seq<Entry>, e: Entry)
    ensures e in Collapsed(es) <==> exists i :: 0 <= i < |es| && LastAt(es, e, i)
  {
    hide Collapsed, LatestIn, LastAt;
    CollapsedLatest(es, e);
    LatestIff(es, e);
  }

  lemma CollapsedEmpty(es: seq<Entry>)
    requires |es| == 0
    ensures Collapsed(es) == []
  {
  }

  lemma CollapsedStep(es: seq<Entry>)
    requires |es| > 0
    ensures Collapsed(es) == Merged(Collapsed(es[..|es| - 1]), es[|es| - 1])
  {
  }

  lemma MergedIff(r: seq<Entry>, e: Entry, x: Entry)
    requires OnePerIf(r)
    ensures x in Merged(r, e) <==> x == e || (x.ifname != e.ifname && x in r)
  {
    var i, m := ScanIf(r, e.ifname, |r|), Merged(r, e);
    if i >= 0 {
      assert m[i] == e;
      forall k | 0 <= k < |r| && k != i ensures m[k] == r[k] && r[k].ifname != e.ifname {
      }
      if x in r && x.ifname != e.ifname {
        var k :| 0 <= k < |r| && r[k] == x;
        assert m[k] == x;
      }
    }
  }

  lemma CollapsedUnique(es: seq<Entry>)
    requires Unique(es) && EntriesOk(es)
    ensures Unique(Collapsed(es)) && EntriesOk(Collapsed(es))
  {
    hide Collapsed, ScanIf;
    CollapsedOnePerIf(es);
    var r := Collapsed(es);
    forall i | 0 <= i < |r| ensures r[i] in es {
      CollapsedIff(es, r[i]);
    }
    forall i, j | 0 <= i < j < |r| ensures r[i].mac != r[j].mac {
      var a :| 0 <= a < |es| && es[a] == r[i];
      var b :| 0 <= b < |es| && es[b] == r[j];
    }
  }

  /** If nothing was collapsed, nothing changed. */
  lemma {:induction false} CollapsedSame(es: seq<Entry>)
    requires |Collapsed(es)| == |es|
    ensures Collapsed(es) == es
  {
    if |es| > 0 {
      var n := |es| - 1;
      assert es == es[..n] + [es[n]];
      CollapsedSame(es[..n]);
    }
  }

  /** Learning keeps MACs unique: a new MAC replaces the old one of its port, a known MAC moves. */
  lemma UpsertedUnique(es: seq<Entry>, ifname: string, mac: Mac)
    requires Unique(es) && EntriesOk(es) && MacOk(mac)
    ensures var (r, k) := Upserted(es, ifname, mac);
            && Unique(r) && EntriesOk(r)
            && (ScanFor(es, mac) >= 0 || ScanIf(es, ifname, |es|) >= 0 || |es| < MAX_ENTRIES ==>
                  exists i :: 0 <= i < |r| && r[i] == Entry(mac, ifname))
  {
    var r := Upserted(es, ifname, mac).0;
    var m, f := ScanFor(es, mac), ScanIf(es, ifname, |es|);
    if m >= 0 {
      assert r[m] == Entry(mac, ifname);
    } else if f >= 0 {
      assert r[f] == Entry(mac, ifname);
    } else if |es| < MAX_ENTRIES {
      assert r[|es|] == Entry(mac, ifname);
    }
  }

  /** Learning keeps one MAC per interface except when a known MAC moves onto an occupied interface: a
      condition on the table before the call. */
  lemma UpsertOnePerIfIff(es: seq<Entry>, ifname: string, mac: Mac)
    requires OnePerIf(es)
    ensures var m, f := ScanFor(es, mac), ScanIf(es, ifname, |es|);
            OnePerIf(Upserted(es, ifname, mac).0) <==> !(m >= 0 && f >= 0 && m != f)
  {
    hide ScanFor, ScanIf;
    var m, f := ScanFor(es, mac), ScanIf(es, ifname, |es|);
    var r := Upserted(es, ifname, mac).0;
    if m >= 0 && f >= 0 && m != f {
      assert r[m].ifname == ifname && r[f].ifname == ifname;
      assert m < f || f < m;
    }
  }

  /** Two ports, two MACs, and the first MAC seen again on the second port. */
  lemma MoveDoublesPort()
    ensures exists es, ifname, mac :: OnePerIf(es) && Unique(es) && EntriesOk(es)
              && Upserted(es, ifname, mac).1 == Move && !OnePerIf(Upserted(es, ifname, mac).0)
  {
    var a, b := Mac(2, 0, 0, 0, 0, 1), Mac(2, 0, 0, 0, 0, 2);
    var es := [Entry(a, "lan0"), Entry(b, "lan1")];
    assert es[0].ifname[3] != es[1].ifname[3];
    ScanUnique(es, a, 0);
    ScanIfStops(es, "lan1", 1, 2);
    UpsertOnePerIfIff(es, "lan1", a);
    assert Upserted(es, "lan1", a).1 == Move;
  }
}
