/** The least-recently-used block cache of src/fs/bcache.c as a refinement of flat disks. */
module BlockCache {
  import opened Bits

  const MAX_PAGES := 256
  const PAGE_SIZE := 4096

  type Sector = seq<nat>

  /** A block device: sectors per 4 KB cache page, what is stored, and which pages it can read. */
  datatype Disk = Disk(spp: nat, sectors: nat -> Sector, readable: nat -> bool)

  /** A cache slot; `dev` is the device's number, or -1 when the slot is empty. */
  datatype Entry = Entry(dev: int, page: nat, lastUse: nat, dirty: bool, data: seq<Sector>)

  const NO_DEVICE := -1

  function PageOf(lba: nat, spp: nat): nat
    requires spp > 0
  {
    lba / spp * spp
  }

  lemma PageBounds(lba: nat, spp: nat)
    requires spp > 0
    ensures PageOf(lba, spp) <= lba < PageOf(lba, spp) + spp
  {
  }

  lemma SamePage(lba: nat, at: nat, spp: nat)
    requires spp > 0 && PageOf(lba, spp) <= at < PageOf(lba, spp) + spp
    ensures PageOf(at, spp) == PageOf(lba, spp)
  {
    DivIs(at, spp, lba / spp, at - lba / spp * spp);
  }

  /** A page that starts a page is its own page. */
  ghost predicate Aligned(page: nat, spp: nat) { spp > 0 && PageOf(page, spp) == page }

  predicate Holds(e: Entry, d: nat, page: nat) { e.dev == d && e.page == page }

  /** The slot holding a page, or -1. */
  function FindEntry(es: seq<Entry>, d: nat, page: nat): (i: int)
    ensures -1 <= i < |es|
    ensures i >= 0 ==> Holds(es[i], d, page)
    ensures i < 0 ==> forall k :: 0 <= k < |es| ==> !Holds(es[k], d, page)
  {
    if es == [] then -1
    else if Holds(es[|es| - 1], d, page) then |es| - 1
    else FindEntry(es[..|es| - 1], d, page)
  }

  /** The device cannot read the page of a sector. */
  ghost predicate Unreadable(disks: seq<Disk>, d: nat, lba: nat) {
    d < |disks| && disks[d].spp > 0 && !disks[d].readable(PageOf(lba, disks[d].spp))
  }

  /** Nor is it cached. */
  ghost predicate OutOfReach(es: seq<Entry>, disks: seq<Disk>, d: nat, lba: nat) {
    Unreadable(disks, d, lba) && FindEntry(es, d, PageOf(lba, disks[d].spp)) < 0
  }

  /** So many sectors from there on fill its page. */
  ghost predicate WholePage(disks: seq<Disk>, d: nat, lba: nat, n: nat) {
    d < |disks| && disks[d].spp > 0 && PageOf(lba, disks[d].spp) == lba && n >= disks[d].spp
  }

  lemma ChunkCases(es: seq<Entry>, disks: seq<Disk>, d: nat, at: nat, len: nat)
    requires d < |disks| && disks[d].spp > 0
    ensures var spp := disks[d].spp;
      var page := PageOf(at, spp);
      OutOfReach(es, disks, d, at) && !WholePage(disks, d, at, len) <==>
        FindEntry(es, d, page) < 0 && !disks[d].readable(page) &&
        (if spp - (at - page) > len then len else spp - (at - page)) != spp
  {
    hide FindEntry;
    PageBounds(at, disks[d].spp);
    hide PageOf;
  }

  ghost predicate EntryOk(e: Entry, disks: seq<Disk>, ticks: nat) {
    && e.lastUse <= ticks
    && (e.dev != NO_DEVICE ==>
          && 0 <= e.dev < |disks|
          && Aligned(e.page, disks[e.dev].spp)
          && |e.data| == disks[e.dev].spp
          && (!e.dirty ==> forall k :: 0 <= k < |e.data| ==> e.data[k] == disks[e.dev].sectors(e.page + k)))
  }

  /** No page is cached twice. */
  ghost predicate Unique(es: seq<Entry>) {
    forall i, j :: 0 <= i < j < |es| && es[i].dev != NO_DEVICE && es[i].dev == es[j].dev ==> es[i].page != es[j].page
  }

  ghost predicate Consistent(es: seq<Entry>, disks: seq<Disk>, ticks: nat) {
    && |es| == MAX_PAGES
    && (forall d :: 0 <= d < |disks| ==> disks[d].spp > 0)
    && (forall i {:trigger EntryOk(es[i], disks, ticks)} :: 0 <= i < |es| ==> EntryOk(es[i], disks, ticks))
    && Unique(es)
  }

  /** What reading a sector gives: the cached copy if there is one, else what the device stores. */
  ghost function View(es: seq<Entry>, disks: seq<Disk>, d: nat, lba: nat): Sector
    requires d < |disks| && disks[d].spp > 0
  {
    var page := PageOf(lba, disks[d].spp);
    var i := FindEntry(es, d, page);
    if i >= 0 && lba - page < |es[i].data| && page <= lba then es[i].data[lba - page] else disks[d].sectors(lba)
  }

  /** Two states that no read can tell apart. */
  ghost predicate SameView(es: seq<Entry>, disks: seq<Disk>, es': seq<Entry>, disks': seq<Disk>) {
    && |disks'| == |disks|
    && (forall d :: 0 <= d < |disks| ==>
          disks'[d].spp == disks[d].spp && disks[d].spp > 0 && disks'[d].readable == disks[d].readable)
    && (forall d, lba {:trigger View(es', disks', d, lba)} :: 0 <= d < |disks| && 0 <= lba ==>
          View(es', disks', d, lba) == View(es, disks, d, lba))
  }

  lemma FoundAt(es: seq<Entry>, i: nat, d: nat, page: nat)
    requires Unique(es) && i < |es| && Holds(es[i], d, page)
    ensures FindEntry(es, d, page) == i
  {
    var j := FindEntry(es, d, page);
    if j < i {} else if i < j {}
  }

  // ---- Replacing one slot ----

  /** A slot may take a page that no other slot holds. */
  lemma UniqueSet(es: seq<Entry>, i: nat, e: Entry)
    requires Unique(es) && i < |es|
    requires
      e.dev != NO_DEVICE ==> forall k :: 0 <= k < |es| && k != i ==> !(es[k].dev == e.dev && es[k].page == e.page)
    ensures Unique(es[i := e])
  {
  }

  /** Lookups of other pages do not notice. */
  lemma FindSet(es: seq<Entry>, i: nat, e: Entry, d: nat, page: nat)
    requires i < |es| && Unique(es) && Unique(es[i := e])
    ensures Holds(e, d, page) ==> FindEntry(es[i := e], d, page) == i
    ensures !Holds(e, d, page) && !Holds(es[i], d, page) ==> FindEntry(es[i := e], d, page) == FindEntry(es, d, page)
    ensures !Holds(e, d, page) && Holds(es[i], d, page) ==> FindEntry(es[i := e], d, page) == -1
  {
    var es' := es[i := e];
    var j, j' := FindEntry(es, d, page), FindEntry(es', d, page);
    if Holds(e, d, page) {
      FoundAt(es', i, d, page);
    } else if Holds(es[i], d, page) {
      if j' >= 0 { assert Holds(es[j'], d, page); FoundAt(es, j', d, page); FoundAt(es, i, d, page); }
    } else if j >= 0 {
      assert Holds(es'[j], d, page);
      FoundAt(es', j, d, page);
    }
  }

  /** A used slot that is touched, or loaded from an empty one with what the disk stores, shows the same. */
  lemma SetKeepsView(es: seq<Entry>, disks: seq<Disk>, ticks: nat, i: nat, e: Entry, ticks': nat)
    requires Consistent(es, disks, ticks) && i < |es| && ticks <= ticks' && EntryOk(e, disks, ticks')
    requires e.dev != NO_DEVICE
    requires FindEntry(es, e.dev, e.page) == (if es[i].dev == NO_DEVICE then -1 else i)
    requires if es[i].dev == NO_DEVICE then !e.dirty else e.data == es[i].data
    ensures Consistent(es[i := e], disks, ticks') && SameView(es, disks, es[i := e], disks)
  {
    var es' := es[i := e];
    SlotFree(es, i, e);
    UniqueSet(es, i, e);
    forall k | 0 <= k < |es| ensures EntryOk(es'[k], disks, ticks') { assert EntryOk(es[k], disks, ticks); }
    forall d, lba | 0 <= d < |disks| && 0 <= lba ensures View(es', disks, d, lba) == View(es, disks, d, lba) {
      var page := PageOf(lba, disks[d].spp);
      PageBounds(lba, disks[d].spp);
      FindSet(es, i, e, d, page);
      assert EntryOk(es[i], disks, ticks);
    }
  }

  lemma SlotFree(es: seq<Entry>, i: nat, e: Entry)
    requires Unique(es) && i < |es| && e.dev >= 0
    requires FindEntry(es, e.dev, e.page) == (if es[i].dev == NO_DEVICE then -1 else i)
    ensures forall k :: 0 <= k < |es| && k != i ==> !(es[k].dev == e.dev && es[k].page == e.page)
  {
    forall k | 0 <= k < |es| && k != i ensures !(es[k].dev == e.dev && es[k].page == e.page) {
      if es[k].dev == e.dev && es[k].page == e.page {
        assert Holds(es[k], e.dev, e.page);
        FoundAt(es, k, e.dev, e.page);
      }
    }
  }

  // ---- Writing a page back ----

  /** The device after a page is written to it. */
  function Stored(disk: Disk, page: nat, data: seq<Sector>): Disk {
    disk.(sectors := (lba: nat) => if page <= lba < page + |data| then data[lba - page] else disk.sectors(lba))
  }

  function WriteBack(disks: seq<Disk>, e: Entry): seq<Disk>
    requires 0 <= e.dev < |disks|
  {
    if e.dirty then disks[e.dev := Stored(disks[e.dev], e.page, e.data)] else disks
  }

  lemma PagesApart(p: nat, q: nat, spp: nat)
    requires Aligned(p, spp) && Aligned(q, spp) && p < q
    ensures p + spp <= q
  {
    if q < p + spp { SamePage(p, q, spp); }
  }

  /** Writing a slot back leaves the other slots consistent with the device. */
  lemma WriteBackOthers(es: seq<Entry>, disks: seq<Disk>, ticks: nat, i: nat, k: nat)
    requires Consistent(es, disks, ticks) && i < |es| && k < |es| && i != k && 0 <= es[i].dev < |disks|
    ensures EntryOk(es[k], WriteBack(disks, es[i]), ticks)
  {
    assert EntryOk(es[i], disks, ticks) && EntryOk(es[k], disks, ticks);
    if es[k].dev == es[i].dev {
      if es[k].page < es[i].page { PagesApart(es[k].page, es[i].page, disks[es[k].dev].spp); }
      if es[i].page < es[k].page { PagesApart(es[i].page, es[k].page, disks[es[k].dev].spp); }
    }
  }

  /** After writing back, the slot may be marked clean or emptied; no read can tell. */
  lemma WriteBackKeepsView(es: seq<Entry>, disks: seq<Disk>, ticks: nat, i: nat, empty: bool)
    requires Consistent(es, disks, ticks) && i < |es| && 0 <= es[i].dev < |disks|
    ensures var e := es[i].(dev := if empty then NO_DEVICE else es[i].dev, dirty := false);
            Consistent(es[i := e], WriteBack(disks, es[i]), ticks)
            && SameView(es, disks, es[i := e], WriteBack(disks, es[i]))
  {
    var e := es[i].(dev := if empty then NO_DEVICE else es[i].dev, dirty := false);
    var es', disks' := es[i := e], WriteBack(disks, es[i]);
    assert EntryOk(es[i], disks, ticks);
    UniqueSet(es, i, e);
    forall k | 0 <= k < |es| ensures EntryOk(es'[k], disks', ticks) {
      if k != i { WriteBackOthers(es, disks, ticks, i, k); }
    }
    forall d, lba | 0 <= d < |disks| && 0 <= lba ensures View(es', disks', d, lba) == View(es, disks, d, lba) {
      WriteBackView(es, disks, ticks, i, e, d, lba);
    }
  }

  lemma WriteBackView(es: seq<Entry>, disks: seq<Disk>, ticks: nat, i: nat, e: Entry, d: nat, lba: nat)
    requires Consistent(es, disks, ticks) && i < |es| && 0 <= es[i].dev < |disks| && d < |disks|
    requires e == es[i].(dev := NO_DEVICE, dirty := false) || e == es[i].(dirty := false)
    requires Unique(es[i := e])
    ensures View(es[i := e], WriteBack(disks, es[i]), d, lba) == View(es, disks, d, lba)
  {
    var spp := disks[d].spp;
    var page := PageOf(lba, spp);
    PageBounds(lba, spp);
    FindSet(es, i, e, d, page);
    assert EntryOk(es[i], disks, ticks);
    if Holds(es[i], d, page) {
      FoundAt(es, i, d, page);
    } else if es[i].dev == d && es[i].page <= lba < es[i].page + spp {
      SamePage(es[i].page, lba, spp);
    }
  }

  // ---- Changing sectors of a cached page ----

  /** A page's data with some sectors overwritten. */
  function Overlay(data: seq<Sector>, at: nat, src: seq<Sector>): (r: seq<Sector>)
    requires at + |src| <= |data|
    ensures |r| == |data|
  {
    data[..at] + src + data[at + |src|..]
  }

  /** Exactly the sectors from `lba` on are replaced by `src`. */
  ghost predicate Wrote(es: seq<Entry>, disks: seq<Disk>, es': seq<Entry>, disks': seq<Disk>, d: nat, lba: nat,
                        src: seq<Sector>)
    requires d < |disks|
  {
    && |disks'| == |disks|
    && (forall x :: 0 <= x < |disks| ==>
          disks'[x].spp == disks[x].spp && disks[x].spp > 0 && disks'[x].readable == disks[x].readable)
    && (forall x, at {:trigger View(es', disks', x, at)} :: 0 <= x < |disks| && 0 <= at ==>
          View(es', disks', x, at) ==
          if x == d && lba <= at < lba + |src| then src[at - lba] else View(es, disks, x, at))
  }

  /** Storing into a cached page, or into an empty slot when the whole page is given. */
  lemma StoreChangesView(es: seq<Entry>, disks: seq<Disk>, ticks: nat, i: nat, e: Entry, at: nat, src: seq<Sector>)
    requires Consistent(es, disks, ticks) && i < |es| && EntryOk(e, disks, ticks) && e.dev != NO_DEVICE && e.dirty
    requires FindEntry(es, e.dev, e.page) == (if es[i].dev == NO_DEVICE then -1 else i)
    requires if es[i].dev == NO_DEVICE then at == 0 && |src| == disks[e.dev].spp && e.data == src
             else at + |src| <= |es[i].data| && e.data == Overlay(es[i].data, at, src)
    ensures Consistent(es[i := e], disks, ticks)
    ensures Wrote(es, disks, es[i := e], disks, e.dev, e.page + at, src)
  {
    var es' := es[i := e];
    SlotFree(es, i, e);
    UniqueSet(es, i, e);
    forall k | 0 <= k < |es| ensures EntryOk(es'[k], disks, ticks) { assert EntryOk(es[k], disks, ticks); }
    forall x, l | 0 <= x < |disks| && 0 <= l
      ensures View(es', disks, x, l) ==
              if x == e.dev && e.page + at <= l < e.page + at + |src| then src[l - e.page - at]
              else View(es, disks, x, l)
    {
      StoreAt(es, disks, ticks, i, e, at, src, x, l);
    }
  }

  lemma StoreAt(es: seq<Entry>, disks: seq<Disk>, ticks: nat, i: nat, e: Entry, at: nat, src: seq<Sector>, x: nat,
                l: nat)
    requires Consistent(es, disks, ticks) && i < |es| && EntryOk(e, disks, ticks) && e.dev != NO_DEVICE
    requires Unique(es[i := e]) && x < |disks|
    requires es[i].dev == NO_DEVICE || Holds(es[i], e.dev, e.page)
    requires if es[i].dev == NO_DEVICE then at == 0 && |src| == disks[e.dev].spp && e.data == src
             else at + |src| <= |es[i].data| && e.data == Overlay(es[i].data, at, src)
    ensures View(es[i := e], disks, x, l) ==
            if x == e.dev && e.page + at <= l < e.page + at + |src| then src[l - e.page - at] else View(es, disks, x, l)
  {
    var spp := disks[x].spp;
    var page := PageOf(l, spp);
    PageBounds(l, spp);
    FindSet(es, i, e, x, page);
    assert EntryOk(es[i], disks, ticks);
    if Holds(es[i], x, page) { FoundAt(es, i, x, page); }
    if x == e.dev && e.page <= l < e.page + spp { SamePage(e.page, l, spp); }
  }

  // ---- Sequencing steps ----

  lemma SameViewTrans(es: seq<Entry>, disks: seq<Disk>, es1: seq<Entry>, disks1: seq<Disk>, es2: seq<Entry>,
                      disks2: seq<Disk>)
    requires SameView(es, disks, es1, disks1) && SameView(es1, disks1, es2, disks2)
    ensures SameView(es, disks, es2, disks2)
  {
    hide View;
    forall d, lba | 0 <= d < |disks| && 0 <= lba ensures View(es2, disks2, d, lba) == View(es, disks, d, lba) {
      assert View(es2, disks2, d, lba) == View(es1, disks1, d, lba);
    }
  }

  lemma SameViewRefl(es: seq<Entry>, disks: seq<Disk>, ticks: nat)
    requires Consistent(es, disks, ticks)
    ensures SameView(es, disks, es, disks)
  {
  }

  lemma WroteNothing(es: seq<Entry>, disks: seq<Disk>, es1: seq<Entry>, disks1: seq<Disk>, d: nat, lba: nat)
    requires SameView(es, disks, es1, disks1) && d < |disks|
    ensures Wrote(es, disks, es1, disks1, d, lba, [])
  {
    hide View;
    forall x, at | 0 <= x < |disks| && 0 <= at ensures View(es1, disks1, x, at) == View(es, disks, x, at) {}
  }

  lemma WroteMore(es: seq<Entry>, disks: seq<Disk>, es1: seq<Entry>, disks1: seq<Disk>, es2: seq<Entry>,
                  disks2: seq<Disk>, d: nat, lba: nat, src1: seq<Sector>, src2: seq<Sector>)
    requires d < |disks| == |disks1| && Wrote(es, disks, es1, disks1, d, lba, src1)
    requires Wrote(es1, disks1, es2, disks2, d, lba + |src1|, src2)
    ensures Wrote(es, disks, es2, disks2, d, lba, src1 + src2)
  {
    hide View;
    var src := src1 + src2;
    forall x, at | 0 <= x < |disks| && 0 <= at
      ensures View(es2, disks2, x, at) ==
              if x == d && lba <= at < lba + |src| then src[at - lba] else View(es, disks, x, at)
    {
      assert View(es1, disks1, x, at) ==
        if x == d && lba <= at < lba + |src1| then src1[at - lba] else View(es, disks, x, at);
    }
  }

  /** A cached page shows its data. */
  lemma CachedShows(es: seq<Entry>, disks: seq<Disk>, ticks: nat, i: nat, lba: nat)
    requires Consistent(es, disks, ticks) && i < |es| && 0 <= es[i].dev < |disks|
    requires es[i].page <= lba < es[i].page + disks[es[i].dev].spp
    ensures |es[i].data| == disks[es[i].dev].spp
    ensures View(es, disks, es[i].dev, lba) == es[i].data[lba - es[i].page]
  {
    assert EntryOk(es[i], disks, ticks);
    SamePage(es[i].page, lba, disks[es[i].dev].spp);
    FoundAt(es, i, es[i].dev, es[i].page);
  }

  /** What the device returns for a page. */
  function PageData(disk: Disk, page: nat): seq<Sector> { seq(disk.spp, k requires 0 <= k => disk.sectors(page + k)) }

  class Cache {
    const entries: array<Entry>
    var ticks: nat
    var disks: seq<Disk>

    ghost predicate Valid()
      reads this, entries
    {
      entries.Length == MAX_PAGES && Consistent(entries[..], disks, ticks)
    }

    /** Empty slots only: reads see the disks. */
    constructor (devices: seq<Disk>)
      requires forall d :: 0 <= d < |devices| ==> devices[d].spp > 0
      ensures Valid() && disks == devices && fresh(entries) && entries.Length == 256
      ensures
        forall d, lba :: 0 <= d < |devices| && 0 <= lba ==> View(entries[..], disks, d, lba) == devices[d].sectors(lba)
    {
      entries := new Entry[MAX_PAGES](_ => Entry(NO_DEVICE, 0, 0, false, []));
      ticks := 0;
      disks := devices;
    }

    /** The slot holding a page, now the most recently used one, or -1. */
    method Find(d: nat, page: nat) returns (i: int)
      requires Valid() && d < |disks|
      modifies entries, this`ticks
      ensures Valid() && SameView(old(entries[..]), disks, entries[..], disks)
      ensures i == FindEntry(old(entries[..]), d, page)
      ensures i < 0 ==> entries[..] == old(entries[..])
      ensures i >= 0 ==>
        ticks == old(ticks) + 1 && entries[..] == old(entries[..])[i := old(entries[i]).(lastUse := ticks)]
    {
      hide Consistent, SameView;
      for k := 0 to MAX_PAGES
        invariant forall j :: 0 <= j < k ==> !Holds(entries[j], d, page)
        invariant entries[..] == old(entries[..]) && ticks == old(ticks)
      {
        if entries[k].dev == d && entries[k].page == page {
          TouchKeeps(entries[..], disks, ticks, k, d, page);
          ticks := ticks + 1;
          entries[k] := entries[k].(lastUse := ticks);
          return k;
        }
      }
      SameViewRefl(entries[..], disks, ticks);
      return -1;
    }

    /** Empties a slot, writing it back first if it is dirty. */
    method Evict(i: nat)
      requires Valid() && i < MAX_PAGES && entries[i].dev != NO_DEVICE
      modifies entries, this`disks
      ensures Valid() && SameView(old(entries[..]), old(disks), entries[..], disks)
      ensures entries[..] == old(entries[..])[i := old(entries[i]).(dev := NO_DEVICE, dirty := false)]
      ensures |disks| == old(|disks|)
    {
      assert EntryOk(entries[..][i], disks, ticks);
      hide Consistent, SameView;
      WriteBackKeepsView(entries[..], disks, ticks, i, true);
      var e := entries[i];
      disks := WriteBack(disks, e);
      entries[i] := e.(dev := NO_DEVICE, dirty := false);
    }

    /** A slot for a page not yet cached: an empty one if there is one, else the least recently used, evicted.
        `es` is the state with that slot empty. */
    method Alloc(d: nat, page: nat) returns (i: nat, ghost es: seq<Entry>)
      requires Valid() && d < |disks| && FindEntry(entries[..], d, page) < 0
      modifies entries, this`ticks, this`disks
      ensures i < MAX_PAGES && |disks| == old(|disks|) && ticks == old(ticks) + 1
      ensures Consistent(es, disks, ticks) && SameView(old(entries[..]), old(disks), es, disks)
      ensures es[i].dev == NO_DEVICE && FindEntry(es, d, page) < 0
      ensures entries.Length == MAX_PAGES && entries[..] == es[i := Entry(d, page, ticks, false, es[i].data)]
      ensures old(entries[i].dev) != NO_DEVICE ==>
        && (forall k ::
              0 <= k < MAX_PAGES ==>
                old(entries[k].dev) != NO_DEVICE && old(entries[i].lastUse) <= old(entries[k].lastUse))
        && es == old(entries[..])[i := old(entries[i]).(dev := NO_DEVICE, dirty := false)]
      ensures old(entries[i].dev) == NO_DEVICE ==> es == old(entries[..]) && disks == old(disks)
    {
      hide Consistent, SameView;
      i := 0;
      SameViewRefl(entries[..], disks, ticks);
      for k := 0 to MAX_PAGES
        invariant entries[..] == old(entries[..]) && disks == old(disks) && ticks == old(ticks)
        invariant i < MAX_PAGES && (k == 0 ==> i == 0) && (k > 0 ==> i < k)
        invariant forall j :: 0 <= j < k ==> entries[j].dev != NO_DEVICE && entries[i].lastUse <= entries[j].lastUse
      {
        if entries[k].dev == NO_DEVICE {
          es := entries[..];
          TicksGrow(es, disks, ticks);
          ticks := ticks + 1;
          entries[k] := Entry(d, page, ticks, false, entries[k].data);
          return k, es;
        }
        if k == 0 || entries[k].lastUse < entries[i].lastUse {
          i := k;
        }
      }
      Evict(i);
      es := entries[..];
      FoundNone(old(entries[..]), es, i, d, page);
      TicksGrow(es, disks, ticks);
      ticks := ticks + 1;
      entries[i] := Entry(d, page, ticks, false, entries[i].data);
    }

    /** The page in a slot, read from its device if it was not cached; -1 when the device cannot read it. */
    method Fetch(d: nat, page: nat) returns (i: int)
      requires Valid() && d < |disks| && Aligned(page, disks[d].spp)
      modifies entries, this`ticks, this`disks
      ensures Valid() && SameView(old(entries[..]), old(disks), entries[..], disks)
      ensures i >= 0 ==> i < MAX_PAGES && Holds(entries[i], d, page)
      ensures i < 0 <==> FindEntry(old(entries[..]), d, page) < 0 && !old(disks[d]).readable(page)
    {
      hide Consistent, SameView;
      i := Find(d, page);
      if i >= 0 {
        return;
      }
      var slot, es := Alloc(d, page);
      SameDevices(old(entries[..]), old(disks), es, disks, d);
      if !disks[d].readable(page) {
        entries[slot] := entries[slot].(dev := NO_DEVICE);
        FailedLoad(es, disks, ticks, slot, entries[slot]);
        assert entries[..] == es[slot := entries[slot]];
        SameViewTrans(old(entries[..]), old(disks), es, disks, entries[..], disks);
        return -1;
      }
      entries[slot] := entries[slot].(data := PageData(disks[d], page));
      LoadKeeps(es, disks, ticks, slot, d, page);
      assert entries[..] == es[slot := Entry(d, page, ticks, false, PageData(disks[d], page))];
      SameViewTrans(old(entries[..]), old(disks), es, disks, entries[..], disks);
      return slot;
    }

    /** The sectors from `at` on that lie in its page, at most `limit` of them. */
    method ReadChunk(d: nat, at: nat, limit: nat) returns (ok: bool, part: seq<Sector>)
      requires Valid() && d < |disks| && limit > 0
      modifies entries, this`ticks, this`disks
      ensures Valid() && SameView(old(entries[..]), old(disks), entries[..], disks)
      ensures ok ==> 0 < |part| <= limit && old(disks[d].spp) > 0 && Shows(old(entries[..]), old(disks), d, at, part)
      ensures !ok <==> OutOfReach(old(entries[..]), old(disks), d, at)
    {
      var spp := disks[d].spp;
      hide Consistent, SameView, Shows, PageOf;
      HasPages(entries[..], disks, ticks, d);
      var page := PageOf(at, spp);
      PageBounds(at, spp);
      PageIsAligned(at, spp);
      var offset := at - page;
      var chunk := if spp - offset > limit then limit else spp - offset;
      var i := Fetch(d, page);
      if i < 0 {
        return false, [];
      }
      SameDevices(old(entries[..]), old(disks), entries[..], disks, d);
      SliceShows(entries[..], disks, ticks, i, at, chunk);
      part := entries[i].data[offset..offset + chunk];
      ShowsSame(old(entries[..]), old(disks), entries[..], disks, d, at, part);
      ok := true;
    }

    /** Reads sectors as a flat disk would give them, and never changes what later reads see. It fails only when
        the device fails to read a page. */
    method Read(d: nat, lba: nat, count: nat) returns (ok: bool, buf: seq<Sector>)
      requires Valid() && d < |disks|
      modifies entries, this`ticks, this`disks
      ensures Valid() && SameView(old(entries[..]), old(disks), entries[..], disks)
      ensures ok ==> |buf| == count && old(disks[d].spp) > 0 && Shows(old(entries[..]), old(disks), d, lba, buf)
      ensures !ok ==> exists l :: lba <= l < lba + count && Unreadable(old(disks), d, l)
    {
      hide Consistent, SameView, Shows, OutOfReach, Unreadable;
      HasPages(entries[..], disks, ticks, d);
      buf := [];
      SameViewRefl(entries[..], disks, ticks);
      ShowsNone(entries[..], disks, d, lba);
      while |buf| < count
        invariant Valid() && |disks| == old(|disks|) && |buf| <= count && old(disks[d]).spp > 0
        invariant SameView(old(entries[..]), old(disks), entries[..], disks)
        invariant Shows(old(entries[..]), old(disks), d, lba, buf)
      {
        ghost var es1, disks1 := entries[..], disks;
        SameDevices(old(entries[..]), old(disks), es1, disks1, d);
        var good, part := ReadChunk(d, lba + |buf|, count - |buf|);
        SameViewTrans(old(entries[..]), old(disks), es1, disks1, entries[..], disks);
        SameDevices(old(entries[..]), old(disks), entries[..], disks, d);
        if !good {
          StillUnreadable(old(entries[..]), old(disks), es1, disks1, d, lba + |buf|);
          return false, [];
        }
        ReadMore(old(entries[..]), old(disks), es1, disks1, d, lba, buf, part);
        buf := buf + part;
      }
      return true, buf;
    }

    /** A whole page that is not cached, without reading it first. */
    method WriteWhole(d: nat, page: nat, src: seq<Sector>)
      requires Valid() && d < |disks| && FindEntry(entries[..], d, page) < 0
      requires Aligned(page, disks[d].spp) && |src| == disks[d].spp
      modifies entries, this`ticks, this`disks
      ensures Valid() && |disks| == old(|disks|)
      ensures Wrote(old(entries[..]), old(disks), entries[..], disks, d, page, src)
    {
      hide Consistent, SameView, PageOf, Wrote;
      var slot, es := Alloc(d, page);
      SameDevices(old(entries[..]), old(disks), es, disks, d);
      entries[slot] := entries[slot].(data := src, dirty := true);
      StoreWhole(es, disks, ticks, slot, d, page, src);
      assert entries[..] == es[slot := Entry(d, page, ticks, true, src)];
      SameThenWrote(old(entries[..]), old(disks), es, disks, entries[..], disks, d, page, src);
    }

    /** Part of a cached page. */
    method WriteInto(i: nat, d: nat, page: nat, offset: nat, src: seq<Sector>)
      requires Valid() && i < MAX_PAGES && Holds(entries[i], d, page) && d < |disks| && offset + |src| <= disks[d].spp
      modifies entries
      ensures Valid() && Wrote(old(entries[..]), disks, entries[..], disks, d, page + offset, src)
    {
      hide Consistent, PageOf, Wrote;
      ghost var es := entries[..];
      StorePart(es, disks, ticks, i, d, page, offset, src);
      entries[i] := entries[i].(data := Overlay(entries[i].data, offset, src), dirty := true);
      assert entries[..] == es[i := es[i].(data := Overlay(es[i].data, offset, src), dirty := true)];
    }

    /** Writes the sectors that lie in the first page, and says how many they were. */
    method WriteChunk(d: nat, at: nat, src: seq<Sector>) returns (ok: bool, n: nat)
      requires Valid() && d < |disks| && |src| > 0
      modifies entries, this`ticks, this`disks
      ensures Valid() && |disks| == old(|disks|)
      ensures ok ==> 0 < n <= |src| && Wrote(old(entries[..]), old(disks), entries[..], disks, d, at, src[..n])
      ensures !ok ==> SameView(old(entries[..]), old(disks), entries[..], disks)
      ensures !ok <==> OutOfReach(old(entries[..]), old(disks), d, at) && !WholePage(old(disks), d, at, |src|)
    {
      var spp := disks[d].spp;
      hide Consistent, SameView, PageOf, Wrote, FindEntry, Aligned, OutOfReach, WholePage;
      HasPages(entries[..], disks, ticks, d);
      var page := PageOf(at, spp);
      PageBounds(at, spp);
      PageIsAligned(at, spp);
      var offset := at - page;
      n := if spp - offset > |src| then |src| else spp - offset;
      ChunkCases(entries[..], disks, d, at, |src|);
      ok := WritePage(d, page, offset, src[..n]);
    }

    /** Sectors within one page, which is read from its device first only if it is not cached and they do not fill
        it. */
    method WritePage(d: nat, page: nat, offset: nat, src: seq<Sector>) returns (ok: bool)
      requires Valid() && d < |disks| && Aligned(page, disks[d].spp) && offset + |src| <= disks[d].spp
      modifies entries, this`ticks, this`disks
      ensures Valid() && |disks| == old(|disks|)
      ensures ok ==> Wrote(old(entries[..]), old(disks), entries[..], disks, d, page + offset, src)
      ensures !ok ==> SameView(old(entries[..]), old(disks), entries[..], disks)
      ensures !ok <==>
        FindEntry(old(entries[..]), d, page) < 0 && !old(disks[d]).readable(page) && |src| != old(disks[d]).spp
    {
      hide Consistent, SameView, Wrote, FindEntry, Aligned;
      var i := Find(d, page);
      if i < 0 && |src| == disks[d].spp {
        WriteWhole(d, page, src);
        return true;
      }
      ghost var es, disks1 := entries[..], disks;
      ok := WritePart(i, d, page, offset, src);
      if ok {
        SameThenWrote(old(entries[..]), old(disks), es, disks1, entries[..], disks, d, page + offset, src);
      } else {
        SameViewTrans(old(entries[..]), old(disks), es, disks1, entries[..], disks);
      }
    }

    /** Part of a page that is in slot `i`, or is read from its device first. */
    method WritePart(i: int, d: nat, page: nat, offset: nat, src: seq<Sector>) returns (ok: bool)
      requires Valid() && d < |disks| && Aligned(page, disks[d].spp) && offset + |src| <= disks[d].spp
      requires if i >= 0 then i < MAX_PAGES && Holds(entries[i], d, page) else FindEntry(entries[..], d, page) < 0
      modifies entries, this`ticks, this`disks
      ensures Valid() && |disks| == old(|disks|) && (ok <==> i >= 0 || old(disks[d]).readable(page))
      ensures ok ==> Wrote(old(entries[..]), old(disks), entries[..], disks, d, page + offset, src)
      ensures !ok ==> SameView(old(entries[..]), old(disks), entries[..], disks)
    {
      hide Consistent, SameView, Wrote, FindEntry, Aligned, Holds;
      SameViewRefl(entries[..], disks, ticks);
      var slot := i;
      if slot < 0 {
        slot := Fetch(d, page);
      }
      ghost var es, disks1 := entries[..], disks;
      SameDevices(old(entries[..]), old(disks), es, disks, d);
      if slot < 0 {
        return false;
      }
      WriteInto(slot, d, page, offset, src);
      SameThenWrote(old(entries[..]), old(disks), es, disks1, entries[..], disks, d, page + offset, src);
      return true;
    }

    /** Writes sectors as to a flat disk: on success exactly these sectors change. On failure a prefix of them
        has been written, and the device failed to read a page. */
    method Write(d: nat, lba: nat, src: seq<Sector>) returns (ok: bool, done: nat)
      requires Valid() && d < |disks|
      modifies entries, this`ticks, this`disks
      ensures Valid() && |disks| == old(|disks|) && done <= |src|
      ensures Wrote(old(entries[..]), old(disks), entries[..], disks, d, lba, src[..done])
      ensures ok ==> done == |src|
      ensures !ok ==> exists l :: lba <= l < lba + |src| && Unreadable(old(disks), d, l)
    {
      hide Consistent, SameView, Wrote, OutOfReach, Unreadable, WholePage;
      done := 0;
      SameViewRefl(entries[..], disks, ticks);
      WroteNothing(entries[..], disks, entries[..], disks, d, lba);
      assert src[..0] == [];
      while done < |src|
        invariant Valid() && |disks| == old(|disks|) && done <= |src|
        invariant Wrote(old(entries[..]), old(disks), entries[..], disks, d, lba, src[..done])
      {
        ghost var es1, disks1 := entries[..], disks;
        WroteDevices(old(entries[..]), old(disks), es1, disks1, d, lba, src[..done]);
        var good, n := WriteChunk(d, lba + done, src[done..]);
        if !good {
          WroteUnreadable(old(entries[..]), old(disks), es1, disks1, d, lba, src[..done], lba + done);
          WroteNothing(es1, disks1, entries[..], disks, d, lba + done);
          WroteMore(old(entries[..]), old(disks), es1, disks1, entries[..], disks, d, lba, src[..done], []);
          assert src[..done] + [] == src[..done];
          return false, done;
        }
        WroteMore(old(entries[..]), old(disks), es1, disks1, entries[..], disks, d, lba, src[..done], src[done..][..n]);
        assert src[..done] + src[done..][..n] == src[..done + n];
        done := done + n;
      }
      return true, done;
    }

    /** Writes back every dirty page of one device, or of all of them: the devices then store what reads see. */
    method Flush(d: int)
      requires Valid()
      modifies entries, this`disks
      ensures Valid() && SameView(old(entries[..]), old(disks), entries[..], disks)
      ensures Flushed(entries[..], disks, d)
    {
      hide Consistent, SameView;
      SameViewRefl(entries[..], disks, ticks);
      for i := 0 to MAX_PAGES
        invariant Valid() && SameView(old(entries[..]), old(disks), entries[..], disks)
        invariant forall k :: 0 <= k < i && entries[k].dev != NO_DEVICE && (d == NO_DEVICE || entries[k].dev == d) ==>
          !entries[k].dirty
      {
        if entries[i].dev != NO_DEVICE && (d == NO_DEVICE || entries[i].dev == d) && entries[i].dirty {
          ghost var es1, disks1 := entries[..], disks;
          InDevices(es1, disks1, ticks, i);
          WriteBackKeepsView(es1, disks1, ticks, i, false);
          disks := WriteBack(disks, entries[i]);
          entries[i] := entries[i].(dirty := false);
          assert entries[..] == es1[i := es1[i].(dirty := false)];
          SameViewTrans(old(entries[..]), old(disks), es1, disks1, entries[..], disks);
        }
      }
      AllFlat(entries[..], disks, ticks, d);
    }
  }

  /** The device, or with -1 every device, stores what reads see. */
  ghost predicate Flushed(es: seq<Entry>, disks: seq<Disk>, d: int) {
    forall x: nat, lba: nat {:trigger View(es, disks, x, lba)} :: x < |disks| && (d == NO_DEVICE || d == x) ==>
      disks[x].spp > 0 && disks[x].sectors(lba) == View(es, disks, x, lba)
  }

  lemma AllFlat(es: seq<Entry>, disks: seq<Disk>, ticks: nat, d: int)
    requires Consistent(es, disks, ticks)
    requires forall i :: 0 <= i < |es| && es[i].dev != NO_DEVICE && (d == NO_DEVICE || es[i].dev == d) ==> !es[i].dirty
    ensures Flushed(es, disks, d)
  {
    forall x: nat, lba: nat | x < |disks| && (d == NO_DEVICE || d == x)
      ensures disks[x].spp > 0 && disks[x].sectors(lba) == View(es, disks, x, lba)
    {
      CleanIsFlat(es, disks, ticks, x, lba);
    }
  }

  lemma HasPages(es: seq<Entry>, disks: seq<Disk>, ticks: nat, d: nat)
    requires Consistent(es, disks, ticks) && d < |disks|
    ensures disks[d].spp > 0
  {
  }

  lemma InDevices(es: seq<Entry>, disks: seq<Disk>, ticks: nat, i: nat)
    requires Consistent(es, disks, ticks) && i < |es| && es[i].dev != NO_DEVICE
    ensures 0 <= es[i].dev < |disks|
  {
    assert EntryOk(es[i], disks, ticks);
  }

  /** With no dirty page left for a device, what reads see is what it stores. */
  lemma CleanIsFlat(es: seq<Entry>, disks: seq<Disk>, ticks: nat, d: nat, lba: nat)
    requires Consistent(es, disks, ticks) && d < |disks|
    requires forall i :: 0 <= i < |es| && es[i].dev == d ==> !es[i].dirty
    ensures disks[d].spp > 0 && View(es, disks, d, lba) == disks[d].sectors(lba)
  {
    var page := PageOf(lba, disks[d].spp);
    PageBounds(lba, disks[d].spp);
    var i := FindEntry(es, d, page);
    if i >= 0 {
      assert EntryOk(es[i], disks, ticks);
      assert es[i].data[lba - page] == disks[d].sectors(es[i].page + (lba - page));
    }
  }

  lemma WroteDevices(es: seq<Entry>, disks: seq<Disk>, es': seq<Entry>, disks': seq<Disk>, d: nat, lba: nat,
                     src: seq<Sector>)
    requires d < |disks| && Wrote(es, disks, es', disks', d, lba, src)
    ensures |disks'| == |disks| && disks'[d].spp == disks[d].spp > 0 && disks'[d].readable == disks[d].readable
  {
  }

  lemma SameThenWrote(es: seq<Entry>, disks: seq<Disk>, es1: seq<Entry>, disks1: seq<Disk>, es2: seq<Entry>,
                      disks2: seq<Disk>, d: nat, lba: nat, src: seq<Sector>)
    requires d < |disks| == |disks1| && SameView(es, disks, es1, disks1) && Wrote(es1, disks1, es2, disks2, d, lba, src)
    ensures Wrote(es, disks, es2, disks2, d, lba, src)
  {
    WroteNothing(es, disks, es1, disks1, d, lba);
    WroteMore(es, disks, es1, disks1, es2, disks2, d, lba, [], src);
    assert [] + src == src;
  }

  lemma StoreWhole(es: seq<Entry>, disks: seq<Disk>, ticks: nat, i: nat, d: nat, page: nat, src: seq<Sector>)
    requires Consistent(es, disks, ticks) && i < |es| && es[i].dev == NO_DEVICE && d < |disks|
    requires FindEntry(es, d, page) < 0 && Aligned(page, disks[d].spp) && |src| == disks[d].spp
    ensures var e := Entry(d, page, ticks, true, src);
            Consistent(es[i := e], disks, ticks) && Wrote(es, disks, es[i := e], disks, d, page, src)
  {
    StoreChangesView(es, disks, ticks, i, Entry(d, page, ticks, true, src), 0, src);
  }

  lemma StorePart(es: seq<Entry>, disks: seq<Disk>, ticks: nat, i: nat, d: nat, page: nat, at: nat, src: seq<Sector>)
    requires Consistent(es, disks, ticks) && i < |es| && Holds(es[i], d, page) && d < |disks|
    requires at + |src| <= disks[d].spp
    ensures |es[i].data| == disks[d].spp
    ensures var e := es[i].(data := Overlay(es[i].data, at, src), dirty := true);
            Consistent(es[i := e], disks, ticks) && Wrote(es, disks, es[i := e], disks, d, page + at, src)
  {
    assert EntryOk(es[i], disks, ticks);
    FoundAt(es, i, d, page);
    StoreChangesView(es, disks, ticks, i, es[i].(data := Overlay(es[i].data, at, src), dirty := true), at, src);
  }

  lemma ShowsNone(es: seq<Entry>, disks: seq<Disk>, d: nat, lba: nat)
    requires d < |disks| && disks[d].spp > 0
    ensures Shows(es, disks, d, lba, [])
  {
  }

  /** The slice of a page between two sector numbers is what reads of those sectors see. */
  lemma SliceShows(es: seq<Entry>, disks: seq<Disk>, ticks: nat, i: nat, lba: nat, n: nat)
    requires Consistent(es, disks, ticks) && i < |es| && 0 <= es[i].dev < |disks|
    requires es[i].page <= lba && lba + n <= es[i].page + disks[es[i].dev].spp
    ensures |es[i].data| == disks[es[i].dev].spp
    ensures Shows(es, disks, es[i].dev, lba, es[i].data[lba - es[i].page..lba - es[i].page + n])
  {
    assert EntryOk(es[i], disks, ticks);
    hide Consistent, View, EntryOk;
    var buf := es[i].data[lba - es[i].page..lba - es[i].page + n];
    forall k {:trigger buf[k]} | 0 <= k < |buf| ensures buf[k] == View(es, disks, es[i].dev, lba + k) {
      CachedShows(es, disks, ticks, i, lba + k);
    }
  }

  /** Reading from `lba` on gives `buf`. */
  ghost predicate Shows(es: seq<Entry>, disks: seq<Disk>, d: nat, lba: nat, buf: seq<Sector>)
    requires d < |disks| && disks[d].spp > 0
  {
    forall k {:trigger buf[k]} :: 0 <= k < |buf| ==> buf[k] == View(es, disks, d, lba + k)
  }

  lemma ShowsSame(es: seq<Entry>, disks: seq<Disk>, es': seq<Entry>, disks': seq<Disk>, d: nat, lba: nat,
                  buf: seq<Sector>)
    requires SameView(es, disks, es', disks') && d < |disks| && |disks'| == |disks| && disks[d].spp > 0
    ensures disks'[d].spp > 0
    ensures Shows(es', disks', d, lba, buf) <==> Shows(es, disks, d, lba, buf)
  {
    hide View;
    if Shows(es, disks, d, lba, buf) {
      forall k {:trigger buf[k]} | 0 <= k < |buf| ensures buf[k] == View(es', disks', d, lba + k) {}
    }
    if Shows(es', disks', d, lba, buf) {
      forall k {:trigger buf[k]} | 0 <= k < |buf| ensures buf[k] == View(es, disks, d, lba + k) {
        assert View(es', disks', d, lba + k) == View(es, disks, d, lba + k);
      }
    }
  }

  lemma ReadMore(es: seq<Entry>, disks: seq<Disk>, es1: seq<Entry>, disks1: seq<Disk>, d: nat, lba: nat, a: seq<Sector>,
                 b: seq<Sector>)
    requires SameView(es, disks, es1, disks1) && d < |disks| && |disks1| == |disks| && disks[d].spp > 0
    requires disks1[d].spp > 0
    requires Shows(es, disks, d, lba, a) && Shows(es1, disks1, d, lba + |a|, b)
    ensures Shows(es, disks, d, lba, a + b)
  {
    hide SameView, Shows;
    ShowsSame(es, disks, es1, disks1, d, lba + |a|, b);
    ShowsMore(es, disks, d, lba, a, b);
  }

  lemma ShowsMore(es: seq<Entry>, disks: seq<Disk>, d: nat, lba: nat, a: seq<Sector>, b: seq<Sector>)
    requires d < |disks| && disks[d].spp > 0 && Shows(es, disks, d, lba, a) && Shows(es, disks, d, lba + |a|, b)
    ensures Shows(es, disks, d, lba, a + b)
  {
    hide View;
    forall k | 0 <= k < |a + b| ensures (a + b)[k] == View(es, disks, d, lba + k) {
      if k >= |a| { assert b[k - |a|] == View(es, disks, d, lba + |a| + (k - |a|)); }
    }
  }

  lemma PageIsAligned(lba: nat, spp: nat)
    requires spp > 0
    ensures Aligned(PageOf(lba, spp), spp)
  {
    PageBounds(lba, spp);
    SamePage(lba, PageOf(lba, spp), spp);
  }

  lemma TouchKeeps(es: seq<Entry>, disks: seq<Disk>, ticks: nat, i: nat, d: nat, page: nat)
    requires Consistent(es, disks, ticks) && i < |es| && Holds(es[i], d, page)
    ensures FindEntry(es, d, page) == i
    ensures Consistent(es[i := es[i].(lastUse := ticks + 1)], disks, ticks + 1)
    ensures SameView(es, disks, es[i := es[i].(lastUse := ticks + 1)], disks)
  {
    assert EntryOk(es[i], disks, ticks);
    FoundAt(es, i, d, page);
    SetKeepsView(es, disks, ticks, i, es[i].(lastUse := ticks + 1), ticks + 1);
  }

  lemma TicksGrow(es: seq<Entry>, disks: seq<Disk>, ticks: nat)
    requires Consistent(es, disks, ticks)
    ensures Consistent(es, disks, ticks + 1)
  {
    forall i | 0 <= i < |es| ensures EntryOk(es[i], disks, ticks + 1) { assert EntryOk(es[i], disks, ticks); }
  }

  lemma FoundNone(es: seq<Entry>, es': seq<Entry>, i: nat, d: nat, page: nat)
    requires i < |es| == |es'| && es' == es[i := es'[i]] && es'[i].dev == NO_DEVICE && FindEntry(es, d, page) < 0
    ensures FindEntry(es', d, page) < 0
  {
    forall k | 0 <= k < |es'| ensures !Holds(es'[k], d, page) { assert k == i || es'[k] == es[k]; }
  }

  lemma StillUnreadable(es: seq<Entry>, disks: seq<Disk>, es': seq<Entry>, disks': seq<Disk>, d: nat, lba: nat)
    requires SameView(es, disks, es', disks') && d < |disks| && OutOfReach(es', disks', d, lba)
    ensures Unreadable(disks, d, lba)
  {
    SameDevices(es, disks, es', disks', d);
  }

  lemma WroteUnreadable(es: seq<Entry>, disks: seq<Disk>, es': seq<Entry>, disks': seq<Disk>, d: nat, lba: nat,
                        src: seq<Sector>, at: nat)
    requires d < |disks| && Wrote(es, disks, es', disks', d, lba, src) && OutOfReach(es', disks', d, at)
    ensures Unreadable(disks, d, at)
  {
    WroteDevices(es, disks, es', disks', d, lba, src);
  }

  lemma SameDevices(es: seq<Entry>, disks: seq<Disk>, es': seq<Entry>, disks': seq<Disk>, d: nat)
    requires SameView(es, disks, es', disks') && d < |disks|
    ensures |disks'| == |disks| && disks'[d].spp == disks[d].spp && disks'[d].readable == disks[d].readable
  {
  }

  /** An empty slot may hold anything. */
  lemma FailedLoad(es: seq<Entry>, disks: seq<Disk>, ticks: nat, i: nat, e: Entry)
    requires Consistent(es, disks, ticks) && i < |es| && es[i].dev == NO_DEVICE && e.dev == NO_DEVICE
    requires e.lastUse <= ticks
    ensures Consistent(es[i := e], disks, ticks) && SameView(es, disks, es[i := e], disks)
  {
    var es' := es[i := e];
    UniqueSet(es, i, e);
    forall k | 0 <= k < |es| ensures EntryOk(es'[k], disks, ticks) { assert EntryOk(es[k], disks, ticks); }
    forall d, lba | 0 <= d < |disks| && 0 <= lba ensures View(es', disks, d, lba) == View(es, disks, d, lba) {
      FindSet(es, i, e, d, PageOf(lba, disks[d].spp));
    }
  }

  lemma LoadKeeps(es: seq<Entry>, disks: seq<Disk>, ticks: nat, i: nat, d: nat, page: nat)
    requires Consistent(es, disks, ticks) && i < |es| && es[i].dev == NO_DEVICE && d < |disks|
    requires FindEntry(es, d, page) < 0 && Aligned(page, disks[d].spp)
    ensures var e := Entry(d, page, ticks, false, PageData(disks[d], page));
            Consistent(es[i := e], disks, ticks) && SameView(es, disks, es[i := e], disks)
  {
    SetKeepsView(es, disks, ticks, i, Entry(d, page, ticks, false, PageData(disks[d], page)), ticks);
  }
}
