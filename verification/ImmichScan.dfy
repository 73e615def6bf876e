/** `originals_changed_since`: is a directory of the originals newer than the dump, judged from a
    bounded number of entries. */
module ImmichScan {
  import opened Options

  const STALE_SCAN_ENTRY_CAP: nat := 1_000_000

  /** A file or a link, or a directory: when it was modified, whether it can be opened and listed,
      and what it lists. */
  datatype Entry = Other | Folder(mtime: int, readable: bool, entries: seq<Entry>)

  type Dir = d: Entry | d.Folder? witness Folder(0, true, [])

  datatype ScanResult = Changed | Unchanged | Refused

  /** How the listing of one directory ends: the answer is known, or every entry was counted. */
  datatype Listing = Ends(verdict: ScanResult, scanned: nat) | Listed(scanned: nat)

  function ListEntries(es: seq<Entry>, dump: int, scanned: nat): Listing {
    if es == [] then Listed(scanned)
    else if scanned + 1 > STALE_SCAN_ENTRY_CAP then Ends(Unchanged, scanned + 1)
    else if es[0].Folder? && es[0].mtime > dump then Ends(Changed, scanned + 1)
    else ListEntries(es[1..], dump, scanned + 1)
  }

  /** The scan below one directory: its verdict and the shared counter afterwards. */
  function ScanBelow(d: Dir, dump: int, scanned: nat): (ScanResult, nat)
    decreases d, 1
  {
    if !d.readable then (Refused, scanned)
    else
      match ListEntries(d.entries, dump, scanned)
      case Ends(v, n) => (v, n)
      case Listed(n) => ScanFolders(d.entries, dump, n)
  }

  function ScanFolders(es: seq<Entry>, dump: int, scanned: nat): (ScanResult, nat)
    decreases es, 0
  {
    if es == [] then (Unchanged, scanned)
    else
      match es[0]
      case Other => ScanFolders(es[1..], dump, scanned)
      case Folder(_, _, _) =>
        if scanned > STALE_SCAN_ENTRY_CAP then (Unchanged, scanned)
        else
          var first := ScanBelow(es[0], dump, scanned);
          if first.0 != Unchanged then first else ScanFolders(es[1..], dump, first.1)
  }

  /** The scan with its counter. */
  class Scan {
    const dump: int
    var scanned: nat

    constructor (dumpMtime: int)
      ensures dump == dumpMtime && scanned == 0
    {
      dump, scanned := dumpMtime, 0;
    }

    /** `changed_below`. */
    method ChangedBelow(d: Dir) returns (v: ScanResult)
      modifies this
      ensures (v, scanned) == ScanBelow(d, dump, old(scanned))
      decreases d
    {
      if !d.readable { return Refused; }
      for i := 0 to |d.entries|
        invariant ListEntries(d.entries, dump, old(scanned)) == ListEntries(d.entries[i..], dump, scanned)
      {
        var e := d.entries[i];
        scanned := scanned + 1;
        if scanned > STALE_SCAN_ENTRY_CAP { return Unchanged; }
        if e.Folder? && e.mtime > dump { return Changed; }
      }
      ghost var listed := scanned;
      assert ListEntries(d.entries, dump, old(scanned)) == Listed(listed);
      for i := 0 to |d.entries|
        invariant ScanFolders(d.entries, dump, listed) == ScanFolders(d.entries[i..], dump, scanned)
      {
        var e := d.entries[i];
        if e.Folder? {
          if scanned > STALE_SCAN_ENTRY_CAP { return Unchanged; }
          v := ChangedBelow(e);
          if v != Unchanged { return; }
        }
      }
      v := Unchanged;
    }
  }

  /** Some directory below is newer than the dump. */
  predicate NewerBelow(d: Dir, dump: int)
    decreases d, 1
  {
    NewerAmong(d.entries, dump)
  }

  predicate NewerAmong(es: seq<Entry>, dump: int)
    decreases es, 0
  {
    es != [] &&
    ((match es[0] case Other => false case Folder(_, _, _) => es[0].mtime > dump || NewerBelow(es[0], dump)) ||
        NewerAmong(es[1..], dump))
  }

  predicate AllReadable(d: Dir)
    decreases d, 1
  {
    d.readable && ReadableAmong(d.entries)
  }

  predicate ReadableAmong(es: seq<Entry>)
    decreases es, 0
  {
    es == [] || ((match es[0] case Other => true case Folder(_, _, _) => AllReadable(es[0])) && ReadableAmong(es[1..]))
  }

  /** Every entry at any depth. */
  function Total(d: Dir): nat
    decreases d, 1
  {
    |d.entries| + Below(d.entries)
  }

  function Below(es: seq<Entry>): nat
    decreases es, 0
  {
    if es == [] then 0 else (match es[0] case Other => 0 case Folder(_, _, _) => Total(es[0])) + Below(es[1..])
  }

  predicate NewerHere(es: seq<Entry>, dump: int) { exists i :: 0 <= i < |es| && es[i].Folder? && es[i].mtime > dump }

  lemma {:induction false} ListingIs(es: seq<Entry>, dump: int, scanned: nat)
    ensures var r := ListEntries(es, dump, scanned);
            && scanned <= r.scanned <= scanned + |es|
            && (r.Listed? ==> r.scanned == scanned + |es| && !NewerHere(es, dump))
            && (r.Ends? ==> (r.verdict == Changed && NewerHere(es, dump)) ||
                            (r.verdict == Unchanged && scanned + |es| > STALE_SCAN_ENTRY_CAP))
  {
    if es != [] {
      var rest := es[1..];
      if scanned + 1 <= STALE_SCAN_ENTRY_CAP && !(es[0].Folder? && es[0].mtime > dump) {
        ListingIs(rest, dump, scanned + 1);
        assert forall i :: 0 < i < |es| ==> es[i] == rest[i - 1];
        if i :| 0 <= i < |rest| && rest[i].Folder? && rest[i].mtime > dump { assert es[i + 1] == rest[i]; }
      }
    }
  }

  lemma {:induction false} HereIsAmong(es: seq<Entry>, dump: int)
    ensures NewerHere(es, dump) ==> NewerAmong(es, dump)
  {
    if i :| 0 <= i < |es| && es[i].Folder? && es[i].mtime > dump {
      if i > 0 {
        assert es[1..][i - 1] == es[i];
        HereIsAmong(es[1..], dump);
      }
    }
  }

  /** A scan is right as far as it looks: a change reported is real, and within the cap nothing
      reported means nothing changed and everything was counted. */
  ghost predicate FaithfulScan(r: (ScanResult, nat), newer: bool, readable: bool, scanned: nat, total: nat) {
    && scanned <= r.1 <= scanned + total
    && (r.0 == Changed ==> newer)
    && (r.0 == Refused ==> !readable)
    && (r.0 == Unchanged && scanned + total <= STALE_SCAN_ENTRY_CAP ==> !newer && readable && r.1 == scanned + total)
  }

  lemma {:induction false} ScanSound(d: Dir, dump: int, scanned: nat)
    ensures FaithfulScan(ScanBelow(d, dump, scanned), NewerBelow(d, dump), AllReadable(d), scanned, Total(d))
    decreases d, 1
  {
    if d.readable {
      ListingIs(d.entries, dump, scanned);
      HereIsAmong(d.entries, dump);
      var listed := ListEntries(d.entries, dump, scanned);
      if listed.Listed? { FoldersSound(d.entries, dump, listed.scanned); }
    }
  }

  lemma {:induction false} FoldersSound(es: seq<Entry>, dump: int, scanned: nat)
    requires !NewerHere(es, dump)
    ensures FaithfulScan(ScanFolders(es, dump, scanned), NewerAmong(es, dump), ReadableAmong(es), scanned, Below(es))
    decreases es, 0
  {
    if es != [] {
      var rest := es[1..];
      assert forall i :: 0 <= i < |rest| ==> rest[i] == es[i + 1];
      match es[0]
      case Other => FoldersSound(rest, dump, scanned);
      case Folder(_, _, _) =>
        if scanned <= STALE_SCAN_ENTRY_CAP {
          ScanSound(es[0], dump, scanned);
          FoldersSound(rest, dump, ScanBelow(es[0], dump, scanned).1);
        }
    }
  }

  /* ----- by path ----- */

  /** What stands under a directory at a path of positions. */
  function At(d: Entry, path: seq<nat>): Option<Entry>
    decreases |path|
  {
    if path == [] then Some(d)
    else if d.Folder? && path[0] < |d.entries| then At(d.entries[path[0]], path[1..])
    else None
  }

  /** A directory somewhere below. */
  predicate FolderAt(d: Entry, path: seq<nat>) { At(d, path).Some? && At(d, path).value.Folder? }

  ghost predicate SomewhereNewer(d: Dir, dump: int) {
    exists path :: path != [] && FolderAt(d, path) && At(d, path).value.mtime > dump
  }

  ghost predicate EverywhereReadable(d: Dir) { forall path :: FolderAt(d, path) ==> At(d, path).value.readable }

  lemma AtStep(d: Dir, i: nat, path: seq<nat>)
    requires i < |d.entries|
    ensures At(d, [i] + path) == At(d.entries[i], path)
  {
    assert ([i] + path)[1..] == path;
  }

  lemma PathStep(path: seq<nat>)
    requires path != []
    ensures path == [path[0]] + path[1..]
  {
  }

  lemma {:induction false} NewerAmongIs(es: seq<Entry>, dump: int)
    ensures NewerAmong(es, dump) <==>
              exists i :: 0 <= i < |es| && es[i].Folder? && (es[i].mtime > dump || NewerBelow(es[i], dump))
    decreases |es|
  {
    if es != [] {
      NewerAmongIs(es[1..], dump);
      assert forall i :: 0 < i < |es| ==> es[i] == es[1..][i - 1];
      if i :| 0 <= i < |es| - 1 && es[1..][i].Folder? && (es[1..][i].mtime > dump || NewerBelow(es[1..][i], dump)) {
        assert es[i + 1] == es[1..][i];
      }
    }
  }

  /** Newer below is newer at some path. */
  lemma {:induction false} NewerIsSomewhere(d: Dir, dump: int)
    ensures NewerBelow(d, dump) ==> SomewhereNewer(d, dump)
    decreases d
  {
    NewerAmongIs(d.entries, dump);
    if i :| 0 <= i < |d.entries| && d.entries[i].Folder? &&
            (d.entries[i].mtime > dump || NewerBelow(d.entries[i], dump)) {
      var e := d.entries[i];
      if e.mtime > dump {
        AtStep(d, i, []);
        assert FolderAt(d, [i] + []);
      } else {
        NewerIsSomewhere(e, dump);
        var path :| path != [] && FolderAt(e, path) && At(e, path).value.mtime > dump;
        AtStep(d, i, path);
        assert FolderAt(d, [i] + path);
      }
    }
  }

  lemma {:induction false} SomewhereIsNewer(d: Dir, dump: int, path: seq<nat>)
    requires path != [] && FolderAt(d, path) && At(d, path).value.mtime > dump
    ensures NewerBelow(d, dump)
    decreases |path|
  {
    var e := d.entries[path[0]];
    NewerAmongIs(d.entries, dump);
    if |path| > 1 {
      SomewhereIsNewer(e, dump, path[1..]);
    } else {
      assert path[1..] == [];
    }
  }

  lemma {:induction false} ReadableAmongIs(es: seq<Entry>)
    ensures ReadableAmong(es) <==> forall i :: 0 <= i < |es| && es[i].Folder? ==> AllReadable(es[i])
    decreases |es|
  {
    if es != [] {
      ReadableAmongIs(es[1..]);
      assert forall i :: 0 < i < |es| ==> es[i] == es[1..][i - 1];
      if forall i :: 0 <= i < |es| && es[i].Folder? ==> AllReadable(es[i]) {
        forall i | 0 <= i < |es| - 1 && es[1..][i].Folder? ensures AllReadable(es[1..][i]) {
          assert es[i + 1] == es[1..][i];
        }
      }
    }
  }

  lemma {:induction false} ReadableIsEverywhere(d: Dir, path: seq<nat>)
    requires AllReadable(d) && FolderAt(d, path)
    ensures At(d, path).value.readable
    decreases |path|
  {
    if path != [] {
      ReadableAmongIs(d.entries);
      if d.entries[path[0]].Folder? { ReadableIsEverywhere(d.entries[path[0]], path[1..]); }
    }
  }

  lemma {:induction false} EverywhereIsReadable(d: Dir)
    requires EverywhereReadable(d)
    ensures AllReadable(d)
    decreases d
  {
    assert FolderAt(d, []);
    ReadableAmongIs(d.entries);
    forall i | 0 <= i < |d.entries| && d.entries[i].Folder? ensures AllReadable(d.entries[i]) {
      forall path | FolderAt(d.entries[i], path) ensures At(d.entries[i], path).value.readable {
        AtStep(d, i, path);
        assert FolderAt(d, [i] + path);
      }
      EverywhereIsReadable(d.entries[i]);
    }
  }

  /** Some directory below is newer, and all can be listed, in terms of the paths there are. */
  lemma BelowByPath(d: Dir, dump: int)
    ensures NewerBelow(d, dump) <==> SomewhereNewer(d, dump)
    ensures AllReadable(d) <==> EverywhereReadable(d)
  {
    NewerIsSomewhere(d, dump);
    if path :| path != [] && FolderAt(d, path) && At(d, path).value.mtime > dump { SomewhereIsNewer(d, dump, path); }
    if AllReadable(d) {
      forall path | FolderAt(d, path) ensures At(d, path).value.readable { ReadableIsEverywhere(d, path); }
    }
    if EverywhereReadable(d) { EverywhereIsReadable(d); }
  }

  /* ----- the two trees ----- */

  function TreeTotal(t: Option<Dir>): nat { if t.Some? then Total(t.value) else 0 }

  /** An existing root, or some directory below it, is newer. */
  predicate TreeNewer(t: Option<Dir>, dump: int) { t.Some? && (t.value.mtime > dump || NewerBelow(t.value, dump)) }

  predicate TreeReadable(t: Option<Dir>) { t.Some? ==> AllReadable(t.value) }

  /** `originals_changed_since` for a root that opens: the two roots' own times first, then below
      each with one counter. */
  method OriginalsChangedSince(upload: Option<Dir>, library: Option<Dir>, dump: int) returns (v: ScanResult)
    ensures v == Changed ==> TreeNewer(upload, dump) || TreeNewer(library, dump)
    ensures TreeTotal(upload) + TreeTotal(library) <= STALE_SCAN_ENTRY_CAP && v == Unchanged ==>
              !TreeNewer(upload, dump) && !TreeNewer(library, dump) && TreeReadable(upload) && TreeReadable(library)
    ensures TreeReadable(upload) && TreeReadable(library) ==> v != Refused
    ensures (upload.Some? && upload.value.mtime > dump) || (library.Some? && library.value.mtime > dump) ==>
              v == Changed
  {
    if upload.Some? && upload.value.mtime > dump { return Changed; }
    if library.Some? && library.value.mtime > dump { return Changed; }
    var scan := new Scan(dump);
    if upload.Some? {
      ScanSound(upload.value, dump, 0);
      v := scan.ChangedBelow(upload.value);
      if v != Unchanged { return; }
    }
    if library.Some? {
      ScanSound(library.value, dump, scan.scanned);
      v := scan.ChangedBelow(library.value);
      return;
    }
    v := Unchanged;
  }

  /** A tree is newer when its root is, or a directory at some path below it. */
  lemma TreeByPath(t: Option<Dir>, dump: int)
    ensures TreeNewer(t, dump) <==>
              t.Some? && exists path :: FolderAt(t.value, path) && At(t.value, path).value.mtime > dump
    ensures TreeReadable(t) <==> t.None? || EverywhereReadable(t.value)
  {
    if t.Some? {
      BelowByPath(t.value, dump);
      assert FolderAt(t.value, []);
    }
  }

  function Files(n: nat): seq<Entry> { seq(n, i => Other) }

  lemma {:induction false} FilesOnly(n: nat, rest: seq<Entry>, dump: int, scanned: nat)
    requires scanned <= STALE_SCAN_ENTRY_CAP < scanned + n
    ensures ListEntries(Files(n) + rest, dump, scanned) == Ends(Unchanged, STALE_SCAN_ENTRY_CAP + 1)
    decreases n
  {
    assert (Files(n) + rest)[0] == Other;
    if scanned < STALE_SCAN_ENTRY_CAP {
      assert (Files(n) + rest)[1..] == Files(n - 1) + rest;
      FilesOnly(n - 1, rest, dump, scanned + 1);
    }
  }

  /** Past the cap a change goes unseen: a directory of that many files hides whatever follows them. */
  lemma CapHides(newer: Dir, dump: int)
    requires newer.mtime > dump
    ensures var d := Folder(dump, true, Files(STALE_SCAN_ENTRY_CAP + 1) + [newer]);
            NewerBelow(d, dump) && ScanBelow(d, dump, 0).0 == Unchanged
  {
    var es := Files(STALE_SCAN_ENTRY_CAP + 1) + [newer];
    FilesOnly(STALE_SCAN_ENTRY_CAP + 1, [newer], dump, 0);
    assert es[STALE_SCAN_ENTRY_CAP + 1] == newer;
    HereIsAmong(es, dump);
  }
}
