/**
 * The export dialog: a per-dialog copy of the character selection, the count that enables
 * the export button, and the loop that packs the selected characters' audio files into one
 * zip archive, a folder per character.
 */
module ExportDataset {
  import opened Types
  import opened AppStateContext
  import Seqs
  import Percent

  /** The dialog's own `Record<string, boolean>` of character ids. */
  type Selection = map<string, bool>

  /** `!!selection[id]`: an id the record does not hold reads as unselected. */
  predicate Truthy(m: Selection, id: string)
  {
    id in m && m[id]
  }

  /**
   * `handleOpen`'s `forEach`: every character's id mapped to its flag. The keys are exactly
   * the ids of the list.
   */
  function SelectionMap(cs: seq<Character>): (m: Selection)
    ensures forall i :: 0 <= i < |cs| ==> cs[i].id in m
    ensures KeysAreIds(cs, m)
    decreases |cs|
  {
    if cs == [] then map[]
    else
      var front := cs[..|cs| - 1];
      var m := SelectionMap(front)[cs[|cs| - 1].id := cs[|cs| - 1].selected];
      assert forall i :: 0 <= i < |front| ==> front[i] == cs[i];
      m
  }

  /** Every key of the record is the id of some character of `cs`. */
  predicate KeysAreIds(cs: seq<Character>, m: Selection)
  {
    forall k :: k in m ==> exists i :: 0 <= i < |cs| && cs[i].id == k
  }

  /** No two characters share an id. */
  predicate UniqueIds(cs: seq<Character>)
  {
    forall i, j :: 0 <= i < j < |cs| ==> cs[i].id != cs[j].id
  }

  /** When ids repeat, the later character's flag is the one recorded. */
  lemma {:induction false} SelectionMapLastWins(cs: seq<Character>, i: nat)
    requires i < |cs|
    requires forall j :: i < j < |cs| ==> cs[j].id != cs[i].id
    ensures SelectionMap(cs)[cs[i].id] == cs[i].selected
    decreases |cs|
  {
    if i < |cs| - 1 {
      var front := cs[..|cs| - 1];
      assert front[i] == cs[i];
      forall j | i < j < |front|
        ensures front[j].id != front[i].id
      {
        assert front[j] == cs[j];
      }
      SelectionMapLastWins(front, i);
    }
  }

  /** With unique ids, opening the dialog starts from the characters' own flags. */
  lemma OpenSelectsFlags(cs: seq<Character>)
    requires UniqueIds(cs)
    ensures Included(cs, SelectionMap(cs)) == Seqs.Filter(cs, (c: Character) => c.selected)
  {
    var m := SelectionMap(cs);
    forall c | c in cs
      ensures Truthy(m, c.id) == c.selected
    {
      var i :| 0 <= i < |cs| && cs[i] == c;
      SelectionMapLastWins(cs, i);
    }
    Seqs.FilterCongruent(cs, (c: Character) => Truthy(m, c.id), (c: Character) => c.selected);
  }

  /** `handleToggleCharacter`: `{ ...prev, [id]: !prev[id] }`. */
  function Toggled(m: Selection, id: string): (r: Selection)
    ensures Truthy(r, id) == !Truthy(m, id)
    ensures r.Keys == m.Keys + {id}
    ensures forall k :: k in m && k != id ==> r[k] == m[k]
  {
    m[id := !Truthy(m, id)]
  }

  /** Toggling the same character twice gives back the selection it started from. */
  lemma ToggleTwice(m: Selection, id: string)
    ensures forall k :: Truthy(Toggled(Toggled(m, id), id), k) == Truthy(m, k)
  {
    var r := Toggled(Toggled(m, id), id);
    forall k
      ensures Truthy(r, k) == Truthy(m, k)
    {
      if k != id {
        assert Truthy(Toggled(m, id), k) == Truthy(m, k);
      }
    }
  }

  /** Toggling a character of the list keeps the record's keys among the list's ids. */
  lemma ToggleKeepsKeys(cs: seq<Character>, m: Selection, i: nat)
    requires KeysAreIds(cs, m) && i < |cs|
    ensures KeysAreIds(cs, Toggled(m, cs[i].id))
  {
  }

  /** `Object.values(selection).filter(Boolean).length`. */
  function SelectedCount(m: Selection): nat
  {
    |set k | k in m && m[k]|
  }

  /** The count never exceeds the number of entries in the record. */
  lemma SelectedCountBound(m: Selection)
    ensures SelectedCount(m) <= |m|
  {
    var s := set k | k in m && m[k];
    assert m.Keys == s + (m.Keys - s) && s * (m.Keys - s) == {};
    assert |m.Keys| == |m|;
  }

  /** The count is zero exactly when no entry of the record is true. */
  lemma SelectedCountZero(m: Selection)
    ensures SelectedCount(m) == 0 <==> forall k :: k in m ==> !m[k]
  {
    var s := set k | k in m && m[k];
    if k :| k in m && m[k] {
      assert k in s;
    }
  }

  /** Each toggle moves the count by exactly one, down from a selected id, up otherwise. */
  lemma ToggleCount(m: Selection, id: string)
    ensures SelectedCount(Toggled(m, id)) == if Truthy(m, id) then SelectedCount(m) - 1 else SelectedCount(m) + 1
  {
    var s := set k | k in m && m[k];
    if Truthy(m, id) {
      UpdateCount(m, id, false);
      assert s == (set k | k in m && m[k] && k != id) + {id};
    } else {
      UpdateCount(m, id, true);
      assert s == (set k | k in m && m[k] && k != id);
    }
  }

  /** Writing `v` under `id` counts the other true entries, plus `id` itself when `v` holds. */
  lemma UpdateCount(m: Selection, id: string, v: bool)
    ensures SelectedCount(m[id := v]) == |set k | k in m && m[k] && k != id| + (if v then 1 else 0)
  {
    var r := m[id := v];
    var others := set k | k in m && m[k] && k != id;
    if v {
      assert (set k | k in r && r[k]) == others + {id};
    } else {
      assert (set k | k in r && r[k]) == others;
    }
  }

  /** `state.characters.filter((c) => selection[c.id])`, in list order. */
  function Included(cs: seq<Character>, m: Selection): (r: seq<Character>)
    ensures |r| <= |cs|
    ensures forall c :: c in r <==> c in cs && Truthy(m, c.id)
  {
    Seqs.Filter(cs, (c: Character) => Truthy(m, c.id))
  }

  /**
   * While the record only holds ids of the list (as opening and toggling leave it), the
   * export button is disabled for a zero count exactly when the export would find nothing
   * selected.
   */
  lemma CountZeroIffNothingIncluded(cs: seq<Character>, m: Selection)
    requires KeysAreIds(cs, m)
    ensures SelectedCount(m) == 0 <==> Included(cs, m) == []
  {
    SelectedCountZero(m);
    var r := Included(cs, m);
    if r != [] {
      assert r[0] in r;
    }
    if k :| k in m && m[k] {
      var i :| 0 <= i < |cs| && cs[i].id == k;
      assert cs[i] in cs;
      assert cs[i] in r;
    }
  }

  /** `totalFiles` over the first `n` characters: the `reduce` that sums the file counts. */
  function FileCount(cs: seq<Character>, n: nat): (r: nat)
    requires n <= |cs|
    ensures r == 0 <==> forall i :: 0 <= i < n ==> cs[i].audioFiles == []
  {
    if n == 0 then 0 else FileCount(cs, n - 1) + |cs[n - 1].audioFiles|
  }

  lemma {:induction false} FileCountMonotone(cs: seq<Character>, a: nat, b: nat)
    requires a <= b <= |cs|
    ensures FileCount(cs, a) <= FileCount(cs, b)
    decreases b
  {
    if a < b {
      FileCountMonotone(cs, a, b - 1);
    }
  }

  /** How many of the first `n` files of the `i`th included character were fetched. */
  function FetchedIn(fetch: (nat, nat) -> bool, i: nat, n: nat): (k: nat)
    ensures k <= n
    ensures k == n <==> forall j :: 0 <= j < n ==> fetch(i, j)
  {
    if n == 0 then 0 else FetchedIn(fetch, i, n - 1) + (if fetch(i, n - 1) then 1 else 0)
  }

  /** `processedFiles` after the first `n` included characters. */
  function Fetched(cs: seq<Character>, fetch: (nat, nat) -> bool, n: nat): (k: nat)
    requires n <= |cs|
    ensures k <= FileCount(cs, n)
  {
    if n == 0 then 0 else Fetched(cs, fetch, n - 1) + FetchedIn(fetch, n - 1, |cs[n - 1].audioFiles|)
  }

  /** Every file counts as processed exactly when every fetch succeeded. */
  lemma {:induction false} FetchedAllIff(cs: seq<Character>, fetch: (nat, nat) -> bool, n: nat)
    requires n <= |cs|
    ensures Fetched(cs, fetch, n) == FileCount(cs, n) <==>
      forall i, j :: 0 <= i < n && 0 <= j < |cs[i].audioFiles| ==> fetch(i, j)
  {
    if n > 0 {
      FetchedAllIff(cs, fetch, n - 1);
    }
  }

  /** A fully fetched, non-empty export ends with the bar at 100. */
  lemma FullExportShowsHundred(cs: seq<Character>, fetch: (nat, nat) -> bool)
    requires 0 < FileCount(cs, |cs|)
    requires forall i, j :: 0 <= i < |cs| && 0 <= j < |cs[i].audioFiles| ==> fetch(i, j)
    ensures Percent.Progress(Fetched(cs, fetch, |cs|), FileCount(cs, |cs|)) == 100
  {
    FetchedAllIff(cs, fetch, |cs|);
    Percent.ProgressEnds(FileCount(cs, |cs|));
  }

  /**
   * Progress advances only after a successful fetch, so one failed fetch in an export of
   * fewer than 200 files leaves the bar short of 100 when the export ends.
   */
  lemma FailedFetchStopsShort(cs: seq<Character>, fetch: (nat, nat) -> bool, i: nat, j: nat)
    requires i < |cs| && j < |cs[i].audioFiles| && !fetch(i, j)
    requires FileCount(cs, |cs|) < 200
    ensures 0 < FileCount(cs, |cs|)
    ensures Percent.Progress(Fetched(cs, fetch, |cs|), FileCount(cs, |cs|)) < 100
  {
    FetchedAllIff(cs, fetch, |cs|);
    Percent.ProgressFull(Fetched(cs, fetch, |cs|), FileCount(cs, |cs|));
  }

  /** One `folder.file(name, blob)` write: folder name, file name, and the URL the blob came from. */
  datatype Entry = Entry(folder: string, fileName: string, source: string)

  /**
   * The zip as the export leaves it: the `zip.folder` calls in order, then the file writes in
   * order. How JSZip merges equal folder names or overwrites equal paths is not modelled.
   */
  datatype Archive = Archive(folders: seq<string>, entries: seq<Entry>)

  /** The entry written for file `f` of character `c`. */
  function EntryOf(c: Character, f: AudioFile): Entry
  {
    Entry(c.name, f.name, f.path)
  }

  /** The inner loop's writes after `n` files of `c`, the `i`th included character. */
  function FolderEntries(c: Character, fetch: (nat, nat) -> bool, i: nat, n: nat): (r: seq<Entry>)
    requires n <= |c.audioFiles|
    ensures |r| == FetchedIn(fetch, i, n)
    ensures forall e :: e in r <==> exists j :: 0 <= j < n && fetch(i, j) && e == EntryOf(c, c.audioFiles[j])
  {
    if n == 0 then []
    else
      var before := FolderEntries(c, fetch, i, n - 1);
      if fetch(i, n - 1) then before + [EntryOf(c, c.audioFiles[n - 1])] else before
  }

  /** All writes after the first `n` included characters, character by character. */
  function ArchiveEntries(cs: seq<Character>, fetch: (nat, nat) -> bool, n: nat): seq<Entry>
    requires n <= |cs|
  {
    if n == 0 then []
    else ArchiveEntries(cs, fetch, n - 1) + FolderEntries(cs[n - 1], fetch, n - 1, |cs[n - 1].audioFiles|)
  }

  /** Every file of the first `n` characters, character order then file order. */
  function AllEntries(cs: seq<Character>, n: nat): (r: seq<Entry>)
    requires n <= |cs|
    ensures |r| == FileCount(cs, n)
  {
    if n == 0 then []
    else
      var c := cs[n - 1];
      AllEntries(cs, n - 1) + seq(|c.audioFiles|, j requires 0 <= j < |c.audioFiles| => EntryOf(c, c.audioFiles[j]))
  }

  /** One entry per processed file: the archive and the progress counter agree. */
  lemma {:induction false} EntriesMatchProcessed(cs: seq<Character>, fetch: (nat, nat) -> bool, n: nat)
    requires n <= |cs|
    ensures |ArchiveEntries(cs, fetch, n)| == Fetched(cs, fetch, n)
  {
    if n > 0 {
      EntriesMatchProcessed(cs, fetch, n - 1);
    }
  }

  /**
   * The archive holds an entry exactly for each fetched file, filed under its character's
   * name.
   */
  lemma {:induction false} ArchiveEntriesExactly(cs: seq<Character>, fetch: (nat, nat) -> bool, n: nat)
    requires n <= |cs|
    ensures forall e :: e in ArchiveEntries(cs, fetch, n) <==>
      exists i, j :: 0 <= i < n && 0 <= j < |cs[i].audioFiles| && fetch(i, j) && e == EntryOf(cs[i], cs[i].audioFiles[j])
  {
    if n > 0 {
      ArchiveEntriesExactly(cs, fetch, n - 1);
    }
  }

  /** When no fetch fails, the archive is every file, in character order then file order. */
  lemma {:induction false} AllFetchedWritesAll(cs: seq<Character>, fetch: (nat, nat) -> bool, n: nat)
    requires n <= |cs|
    requires forall i, j :: 0 <= i < n && 0 <= j < |cs[i].audioFiles| ==> fetch(i, j)
    ensures ArchiveEntries(cs, fetch, n) == AllEntries(cs, n)
  {
    if n > 0 {
      AllFetchedWritesAll(cs, fetch, n - 1);
      var c := cs[n - 1];
      AllFolderWritten(c, fetch, n - 1, |c.audioFiles|);
    }
  }

  lemma {:induction false} AllFolderWritten(c: Character, fetch: (nat, nat) -> bool, i: nat, n: nat)
    requires n <= |c.audioFiles|
    requires forall j :: 0 <= j < n ==> fetch(i, j)
    ensures FolderEntries(c, fetch, i, n) == seq(n, j requires 0 <= j < n => EntryOf(c, c.audioFiles[j]))
  {
    if n > 0 {
      AllFolderWritten(c, fetch, i, n - 1);
    }
  }

  /** What `handleExport` ends with. */
  datatype ExportResult =
    | NothingSelected                          // the "no characters selected" alert
    | Saved(fileName: string, archive: Archive)
    | SaveFailed                               // generating or saving the zip threw

  /**
   * The dialog's component state. `fetch(i, j)` says whether fetching file `j` of the `i`th
   * included character (and reading its blob) succeeds; `saveOk` whether generating and
   * saving the zip does.
   */
  class Component {
    const store: Store
    var open: bool
    var exportFileName: string
    var selection: Selection
    var exporting: bool
    var exportProgress: nat

    constructor (store: Store)
      ensures this.store == store
      ensures !open && exportFileName == "dataset" && selection == map[]
      ensures !exporting && exportProgress == 0
    {
      this.store := store;
      open := false;
      exportFileName := "dataset";
      selection := map[];
      exporting := false;
      exportProgress := 0;
    }

    /** The export button of the page is disabled while there are no characters. */
    function OpenDisabled(): (r: bool)
      reads this, store
      ensures !r <==> exists c :: c in store.state.characters
    {
      var cs := store.state.characters;
      assert cs != [] ==> cs[0] in cs;
      |cs| == 0
    }

    /** The dialog's export button. */
    function ExportDisabled(): (r: bool)
      reads this
      ensures r <==> exporting || forall k :: k in selection ==> !selection[k]
    {
      SelectedCountZero(selection);
      exporting || SelectedCount(selection) == 0
    }

    /** `handleOpen`: records every character's flag and opens the dialog. */
    method HandleOpen()
      modifies this`selection, this`open
      ensures selection == SelectionMap(store.state.characters) && open
    {
      var cs := store.state.characters;
      var m: Selection := map[];
      var i := 0;
      while i < |cs|
        invariant 0 <= i <= |cs| && m == SelectionMap(cs[..i])
      {
        assert cs[..i + 1][..i] == cs[..i];
        m := m[cs[i].id := cs[i].selected];
        i := i + 1;
      }
      assert cs[..|cs|] == cs;
      selection := m;
      open := true;
    }

    method HandleToggleCharacter(id: string)
      modifies this`selection
      ensures selection == Toggled(old(selection), id)
    {
      selection := selection[id := !Truthy(selection, id)];
    }

    /** The file name field. */
    method SetExportFileName(name: string)
      modifies this`exportFileName
      ensures exportFileName == name
    {
      exportFileName := name;
    }

    /** The cancel button and the dialog's close event: ignored while exporting. */
    method Close()
      modifies this`open
      ensures open == (old(open) && exporting)
    {
      if !exporting {
        open := false;
      }
    }

    /**
     * `handleExport`. `shown` is the last progress the bar showed before the final reset.
     * Files that fail to fetch are skipped; an export with zero files still saves its
     * archive of empty folders.
     */
    method HandleExport(fetch: (nat, nat) -> bool, saveOk: bool) returns (result: ExportResult, shown: nat)
      modifies this`exporting, this`exportProgress, this`open
      ensures !exporting && exportProgress == 0
      ensures var sel := Included(store.state.characters, selection);
        && (sel == [] ==> result == NothingSelected && shown == 0 && open == old(open))
        && (sel != [] ==>
              var k := Fetched(sel, fetch, |sel|);
              && shown == (if k == 0 then 0 else Percent.Progress(k, FileCount(sel, |sel|)))
              && (saveOk ==> !open && result == Saved(exportFileName + ".zip",
                   Archive(seq(|sel|, i requires 0 <= i < |sel| => sel[i].name), ArchiveEntries(sel, fetch, |sel|))))
              && (!saveOk ==> result == SaveFailed && open == old(open)))
    {
      exporting := true;
      exportProgress := 0;
      shown := 0;
      var sel := Included(store.state.characters, selection);
      if |sel| == 0 {
        result := NothingSelected;
        exporting := false;
        exportProgress := 0;
        return;
      }
      var archive := Pack(sel, fetch);
      shown := exportProgress;
      if saveOk {
        result := Saved(exportFileName + ".zip", archive);
        open := false;
      } else {
        result := SaveFailed;
      }
      exporting := false;
      exportProgress := 0;
    }

    /** The character loop of `handleExport`: a folder per character, then its files. */
    method Pack(sel: seq<Character>, fetch: (nat, nat) -> bool) returns (archive: Archive)
      requires exportProgress == 0
      modifies this`exportProgress
      ensures archive == Archive(seq(|sel|, i requires 0 <= i < |sel| => sel[i].name), ArchiveEntries(sel, fetch, |sel|))
      ensures var k := Fetched(sel, fetch, |sel|);
        exportProgress == if k == 0 then 0 else Percent.Progress(k, FileCount(sel, |sel|))
    {
      var total := FileCount(sel, |sel|);
      var processed := 0;
      var folders: seq<string> := [];
      var entries: seq<Entry> := [];
      var i := 0;
      while i < |sel|
        invariant 0 <= i <= |sel|
        invariant folders == seq(i, k requires 0 <= k < i => sel[k].name)
        invariant entries == ArchiveEntries(sel, fetch, i)
        invariant processed == Fetched(sel, fetch, i)
        invariant processed <= FileCount(sel, i) <= total
        invariant exportProgress == if processed == 0 then 0 else Percent.Progress(processed, total)
      {
        folders := folders + [sel[i].name];
        FileCountMonotone(sel, i + 1, |sel|);
        entries, processed := PackFolder(sel, fetch, i, total, entries, processed);
        i := i + 1;
      }
      archive := Archive(folders, entries);
    }

    /** The file loop for the `i`th included character. */
    method PackFolder(sel: seq<Character>, fetch: (nat, nat) -> bool, i: nat, total: nat, entries: seq<Entry>, processed: nat)
        returns (entries': seq<Entry>, processed': nat)
      requires i < |sel| && FileCount(sel, i + 1) <= total
      requires entries == ArchiveEntries(sel, fetch, i) && processed == Fetched(sel, fetch, i)
      requires exportProgress == if processed == 0 then 0 else Percent.Progress(processed, total)
      modifies this`exportProgress
      ensures entries' == ArchiveEntries(sel, fetch, i + 1) && processed' == Fetched(sel, fetch, i + 1)
      ensures exportProgress == if processed' == 0 then 0 else Percent.Progress(processed', total)
    {
      var c := sel[i];
      entries', processed' := entries, processed;
      var j := 0;
      while j < |c.audioFiles|
        invariant 0 <= j <= |c.audioFiles|
        invariant entries' == entries + FolderEntries(c, fetch, i, j)
        invariant processed' == processed + FetchedIn(fetch, i, j)
        invariant processed' <= FileCount(sel, i) + j
        invariant exportProgress == if processed' == 0 then 0 else Percent.Progress(processed', total)
      {
        if fetch(i, j) {
          entries' := entries' + [EntryOf(c, c.audioFiles[j])];
          processed' := processed' + 1;
          exportProgress := Percent.Progress(processed', total);
        }
        j := j + 1;
      }
    }
  }

  /**
   * While the record only holds ids of the list, the dialog's export button is disabled
   * exactly when an export is running or the export would find nothing selected.
   */
  lemma ExportDisabledIff(d: Component)
    requires KeysAreIds(d.store.state.characters, d.selection)
    ensures d.ExportDisabled() <==> d.exporting || Included(d.store.state.characters, d.selection) == []
  {
    CountZeroIffNothingIncluded(d.store.state.characters, d.selection);
  }
}
