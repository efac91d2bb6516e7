/**
 * The audio-file panel of the focused character: the audio-type filter on picked or dropped
 * files, the sequential ingestion loop with its cancel flag and progress counter, the
 * two-step file deletion, the size and duration labels, and the table's pagination.
 */
module AudioFileList {
  import opened Wrappers
  import opened Types
  import opened AppStateContext
  import Seqs
  import Decimal
  import Percent

  /** A file handed over by the picker or a drop: its name, byte size and declared MIME type. */
  datatype FileBlob = FileBlob(name: string, size: nat, mimeType: string)

  /** `file.type.startsWith("audio/")` */
  predicate IsAudio(b: FileBlob): (r: bool)
    ensures r <==> |b.mimeType| >= 6 && b.mimeType[..6] == "audio/"
  {
    "audio/" <= b.mimeType
  }

  /** The files that are queued for ingestion: the audio ones, in the order given. */
  function AudioOnly(files: seq<FileBlob>): (r: seq<FileBlob>)
    ensures forall b :: b in r <==> b in files && IsAudio(b)
    ensures (forall b :: b in files ==> !IsAudio(b)) <==> r == []
  {
    var r := Seqs.Filter(files, IsAudio);
    assert r != [] ==> r[0] in r;
    r
  }

  /** `characters.find(c => c.id === focus)`: the first character with the focused id. */
  function FindCharacter(cs: seq<Character>, focus: Option<string>): (r: Option<Character>)
    ensures r.Some? ==> r.value in cs && focus == Some(r.value.id)
    ensures r.Some? ==> exists k :: 0 <= k < |cs| && cs[k] == r.value && forall j :: 0 <= j < k ==> focus != Some(cs[j].id)
    ensures r.None? <==> forall c :: c in cs ==> focus != Some(c.id)
  {
    if cs == [] then None
    else if focus == Some(cs[0].id) then Some(cs[0])
    else FindCharacter(cs[1..], focus)
  }

  /** `files.findIndex(f => f.name === name)`, with `None` for -1. */
  function FindByName(files: seq<AudioFile>, name: string): (r: Option<nat>)
    ensures r.Some? ==> r.value < |files| && files[r.value].name == name
                        && forall j :: 0 <= j < r.value ==> files[j].name != name
    ensures r.None? <==> forall j :: 0 <= j < |files| ==> files[j].name != name
  {
    if files == [] then None
    else if files[0].name == name then Some(0)
    else match FindByName(files[1..], name)
      case None => None
      case Some(k) => Some(k + 1)
  }

  /**
   * What the browser does for one queued file, as seen by the loop: the object URL
   * (`None` when `URL.createObjectURL` throws, which the loop catches), the probed duration
   * (`None` when the metadata probe reports an error), the value `crypto.randomUUID()` would
   * return, and whether the user pressed cancel while the loop was awaiting on this file.
   */
  datatype FileIo = FileIo(objectUrl: Option<string>, duration: Option<Seconds>, uuid: string, cancelClicked: bool)

  /** The file carried by a file action (the payload of an add or an update). */
  function PayloadFile(a: Action): AudioFile
    requires a.AddAudioFile? || a.UpdateAudioFile?
  {
    a.file
  }

  /**
   * The action the loop dispatches for one file, decided against the file list of the
   * character as it was when the batch started; `None` when processing threw before
   * the dispatch.
   */
  function IngestAction(snapshot: Character, b: FileBlob, io: FileIo): (r: Option<Action>)
    ensures r.Some? <==> io.objectUrl.Some?
    ensures r.Some? ==>
      && (r.value.AddAudioFile? || r.value.UpdateAudioFile?)
      && r.value.characterId == snapshot.id
      && PayloadFile(r.value) == PayloadFile(r.value).(name := b.name, path := io.objectUrl.value,
                                                     size := b.size, duration := io.duration, waveform := None)
    ensures r.Some? && r.value.UpdateAudioFile? ==>
      exists k :: 0 <= k < |snapshot.audioFiles| && snapshot.audioFiles[k].name == b.name
                  && (forall j :: 0 <= j < k ==> snapshot.audioFiles[j].name != b.name)
                  && PayloadFile(r.value).id == snapshot.audioFiles[k].id
    ensures r.Some? && r.value.AddAudioFile? <==>
      io.objectUrl.Some? && (forall f :: f in snapshot.audioFiles ==> f.name != b.name)
    ensures r.Some? && r.value.AddAudioFile? ==> PayloadFile(r.value).id == io.uuid
  {
    match io.objectUrl
    case None => None
    case Some(path) =>
      var existing := FindByName(snapshot.audioFiles, b.name);
      var id := if existing.Some? then snapshot.audioFiles[existing.value].id else io.uuid;
      var file := AudioFile(id, b.name, path, b.size, io.duration, None);
      if existing.Some? then Some(UpdateAudioFile(snapshot.id, file)) else Some(AddAudioFile(snapshot.id, file))
  }

  /** The action (or none) for each of the first `n` queued files, one slot per file. */
  function Plan(snapshot: Character, files: seq<FileBlob>, io: nat -> FileIo, n: nat): (r: seq<Option<Action>>)
    requires n <= |files|
    ensures |r| == n
  {
    seq(n, i requires 0 <= i < n => IngestAction(snapshot, files[i], io(i)))
  }

  /** A planned slot holds an action exactly when its file got an object URL. */
  lemma PlanSlots(snapshot: Character, files: seq<FileBlob>, io: nat -> FileIo, n: nat, i: nat)
    requires i < n <= |files|
    ensures Plan(snapshot, files, io, n)[i].Some? <==> io(i).objectUrl.Some?
  {
  }

  /** Dispatches the planned actions in order, skipping the empty slots. */
  function ApplyPlan(s: AppState, plan: seq<Option<Action>>): (r: AppState)
    decreases |plan|
  {
    if plan == [] then s
    else ApplyPlan(if plan[0].Some? then Reduce(s, plan[0].value) else s, plan[1..])
  }

  lemma {:induction false} ApplyPlanSnoc(s: AppState, plan: seq<Option<Action>>, x: Option<Action>)
    ensures ApplyPlan(s, plan + [x]) == (var t := ApplyPlan(s, plan); if x.Some? then Reduce(t, x.value) else t)
    decreases |plan|
  {
    if plan == [] {
      assert plan + [x] == [x];
    } else {
      assert (plan + [x])[1..] == plan[1..] + [x];
      ApplyPlanSnoc(if plan[0].Some? then Reduce(s, plan[0].value) else s, plan[1..], x);
    }
  }

  /** A plan with no action in it leaves the state as it was. */
  lemma {:induction false} EmptyPlanKeepsState(s: AppState, plan: seq<Option<Action>>)
    requires forall k :: 0 <= k < |plan| ==> plan[k].None?
    ensures ApplyPlan(s, plan) == s
    decreases |plan|
  {
    if plan != [] {
      EmptyPlanKeepsState(s, plan[1..]);
    }
  }

  /** A batch in which no file gets an object URL changes nothing in the store. */
  lemma FailedBatchKeepsState(s: AppState, snapshot: Character, files: seq<FileBlob>, io: nat -> FileIo, n: nat)
    requires n <= |files|
    requires forall i :: 0 <= i < n ==> io(i).objectUrl.None?
    ensures ApplyPlan(s, Plan(snapshot, files, io, n)) == s
  {
    forall i | 0 <= i < n
      ensures Plan(snapshot, files, io, n)[i].None?
    {
      PlanSlots(snapshot, files, io, n, i);
    }
    EmptyPlanKeepsState(s, Plan(snapshot, files, io, n));
  }

  /** The cancel flag is raised while file `i` is awaited (only a file that got a URL awaits). */
  predicate CancelsAfter(io: nat -> FileIo, i: nat)
  {
    io(i).objectUrl.Some? && io(i).cancelClicked
  }

  /** Planning one more file dispatches at most that file's action on top of the rest. */
  lemma PlanStep(s: AppState, snapshot: Character, files: seq<FileBlob>, io: nat -> FileIo, i: nat)
    requires i < |files|
    ensures ApplyPlan(s, Plan(snapshot, files, io, i + 1)) ==
      var t := ApplyPlan(s, Plan(snapshot, files, io, i));
      var a := IngestAction(snapshot, files[i], io(i));
      if a.Some? then Reduce(t, a.value) else t
  {
    assert Plan(snapshot, files, io, i + 1) == Plan(snapshot, files, io, i) + [IngestAction(snapshot, files[i], io(i))];
    ApplyPlanSnoc(s, Plan(snapshot, files, io, i), IngestAction(snapshot, files[i], io(i)));
  }

  /**
   * How many of `n` queued files the loop attempts: all of them, or up to and including the
   * first one during which cancel was pressed, since the flag is read before each file.
   */
  function Attempted(io: nat -> FileIo, n: nat): (k: nat)
    ensures k <= n
    ensures k == n || (0 < k && CancelsAfter(io, k - 1))
    ensures forall j :: 0 <= j && j + 1 < k ==> !CancelsAfter(io, j)
    ensures 0 < n ==> 0 < k
    decreases n
  {
    if n == 0 then 0
    else
      var k := Attempted(io, n - 1);
      if k < n - 1 || (0 < k && CancelsAfter(io, k - 1)) then k else n
  }

  /** The characterisation of `Attempted` has a single solution. */
  lemma AttemptedUnique(io: nat -> FileIo, n: nat, k: nat)
    requires k <= n
    requires k == n || (0 < k && CancelsAfter(io, k - 1))
    requires forall j :: 0 <= j && j + 1 < k ==> !CancelsAfter(io, j)
    ensures k == Attempted(io, n)
  {
  }

  /** A batch during which cancel is never pressed attempts every file; its progress ends at 100. */
  lemma BatchRunsToEnd(io: nat -> FileIo, n: nat)
    requires 0 < n
    requires forall j :: 0 <= j < n - 1 ==> !CancelsAfter(io, j)
    ensures Attempted(io, n) == n
    ensures Percent.Progress(Attempted(io, n), n) == 100
  {
    Percent.ProgressEnds(n);
  }

  /** A cancel pressed during file `i` stops the batch right after that file. */
  lemma CancelStopsAfter(io: nat -> FileIo, n: nat, i: nat)
    requires i + 1 < n && CancelsAfter(io, i)
    requires forall j :: 0 <= j < i ==> !CancelsAfter(io, j)
    ensures Attempted(io, n) == i + 1
  {
    AttemptedUnique(io, n, i + 1);
  }

  /**
   * However far the batch gets, ingestion keeps the number and order of characters and the
   * focus, leaves every character other than the target identical, and changes only the
   * file list of the target.
   */
  lemma {:induction false} ApplyPlanSparesOthers(s: AppState, snapshot: Character, files: seq<FileBlob>,
                                                 io: nat -> FileIo, n: nat)
    requires n <= |files|
    ensures var r := ApplyPlan(s, Plan(snapshot, files, io, n));
      && |r.characters| == |s.characters|
      && r.selectedCharacterId == s.selectedCharacterId
      && (forall i :: 0 <= i < |s.characters| && s.characters[i].id != snapshot.id ==>
            r.characters[i] == s.characters[i])
      && (forall i :: 0 <= i < |s.characters| ==>
            r.characters[i] == s.characters[i].(audioFiles := r.characters[i].audioFiles))
  {
    if n > 0 {
      ApplyPlanSparesOthers(s, snapshot, files, io, n - 1);
      assert Plan(snapshot, files, io, n) == Plan(snapshot, files, io, n - 1) + [IngestAction(snapshot, files[n - 1], io(n - 1))];
      ApplyPlanSnoc(s, Plan(snapshot, files, io, n - 1), IngestAction(snapshot, files[n - 1], io(n - 1)));
    }
  }

  /** Whether file `i` is one the loop adds as new: it got a URL and no snapshot file shares its name. */
  predicate IsNewFile(snapshot: Character, b: FileBlob, io: FileIo)
  {
    io.objectUrl.Some? && forall f :: f in snapshot.audioFiles ==> f.name != b.name
  }

  function NewFileCount(snapshot: Character, files: seq<FileBlob>, io: nat -> FileIo, n: nat): nat
    requires n <= |files|
  {
    if n == 0 then 0
    else NewFileCount(snapshot, files, io, n - 1) + (if IsNewFile(snapshot, files[n - 1], io(n - 1)) then 1 else 0)
  }

  /**
   * Each target character ends with its old file count plus one per batch file whose name the
   * snapshot lacked: updates keep the count, and two same-named new files in one batch are
   * both appended, because the lookup never sees files added during the batch.
   */
  lemma {:induction false} ApplyPlanFileCount(s: AppState, snapshot: Character, files: seq<FileBlob>,
                                              io: nat -> FileIo, n: nat, t: nat)
    requires n <= |files| && t < |s.characters| && s.characters[t].id == snapshot.id
    ensures var r := ApplyPlan(s, Plan(snapshot, files, io, n));
      |r.characters| == |s.characters| &&
      |r.characters[t].audioFiles| == |s.characters[t].audioFiles| + NewFileCount(snapshot, files, io, n)
  {
    ApplyPlanSparesOthers(s, snapshot, files, io, n);
    if n > 0 {
      ApplyPlanFileCount(s, snapshot, files, io, n - 1, t);
      var x := IngestAction(snapshot, files[n - 1], io(n - 1));
      assert Plan(snapshot, files, io, n) == Plan(snapshot, files, io, n - 1) + [x];
      ApplyPlanSnoc(s, Plan(snapshot, files, io, n - 1), x);
      ApplyPlanSparesOthers(s, snapshot, files, io, n - 1);
    }
  }

  // ---------------------------------------------------------------------------------------
  // Labels and pagination

  /** `s.endsWith(suffix)` */
  predicate EndsWith(s: string, suffix: string)
  {
    |suffix| <= |s| && s[|s| - |suffix|..] == suffix
  }

  /** The tenths `toFixed(1)` prints for n/unit: the nearest, halves rounded up. */
  function Tenths(n: nat, unit: nat): (t: nat)
    requires 0 < unit
    ensures unit * (2 * t - 1) <= 20 * n < unit * (2 * t + 1)
  {
    var t := (20 * n + unit) / (2 * unit);
    var x, d := 20 * n + unit, 2 * unit;
    assert d * t + x % d == x;
    assert unit * (2 * t - 1) == d * t - unit;
    assert unit * (2 * t + 1) == d * t + unit;
    t
  }

  /** A tenths count written with one decimal, as `toFixed(1)` writes it. */
  function OneDecimal(t: nat): string
  {
    Decimal.NatToString(t / 10) + "." + [Decimal.DigitChar(t % 10)]
  }

  /**
   * `formatFileSize`: bytes below 1 KiB, KiB below 1 MiB, MiB from there on. The unit is
   * "B" exactly below 1024 bytes, "KB" exactly from 1024 below 1024², "MB" from 1024² up.
   */
  function FormatFileSize(bytes: nat): (r: string)
    ensures EndsWith(r, " B") <==> bytes < 1024
    ensures EndsWith(r, " KB") <==> 1024 <= bytes < 1024 * 1024
    ensures EndsWith(r, " MB") <==> 1024 * 1024 <= bytes
  {
    if bytes < 1024 then
      var r := Decimal.NatToString(bytes) + " B";
      assert r[|r| - 2..] == " B" && r[|r| - 1] == 'B' && r[|r| - 2] == ' ';
      r
    else
      var unit := if bytes < 1024 * 1024 then "KB" else "MB";
      var x := if bytes < 1024 * 1024 then OneDecimal(Tenths(bytes, 1024)) else OneDecimal(Tenths(bytes, 1024 * 1024));
      var r := x + " " + unit;
      assert r[|r| - 3..] == " " + unit && r[|r| - 2..] == unit && r[|r| - 2] == unit[0];
      assert (" " + unit)[1] == unit[0];
      r
  }

  /** A size below 1 KiB is printed as the exact byte count. */
  lemma FormatFileSizeBytes(bytes: nat)
    requires bytes < 1024
    ensures var r := FormatFileSize(bytes);
      |r| >= 3 && Decimal.Value(r[..|r| - 2]) == bytes
  {
    var r := FormatFileSize(bytes);
    assert r[..|r| - 2] == Decimal.NatToString(bytes);
    Decimal.ValueOfNatToString(bytes);
  }

  /** The "minutes:seconds" label, "--:--" exactly when the duration is unknown or zero. */
  function FormatDuration(d: Option<Seconds>): (r: string)
    ensures r == "--:--" <==> d.None? || d.value == 0.0
  {
    if d.None? || d.value == 0.0 then "--:--"
    else
      var r := Clock(ClockParts(d.value).0, ClockParts(d.value).1);
      assert Decimal.IsDigit(r[0]) && !Decimal.IsDigit("--:--"[0]);
      r
  }

  /** `Math.floor(seconds / 60)` and `Math.floor(seconds % 60)`. */
  function ClockParts(d: Seconds): (parts: (nat, nat))
    ensures parts.1 < 60 && d.Floor == 60 * parts.0 + parts.1
  {
    var minutes := (d / 60.0).Floor;
    var remaining := (d - 60.0 * minutes as real).Floor;
    (minutes, remaining)
  }

  /**
   * `${minutes}:${remaining.toString().padStart(2, "0")}`, for the remaining seconds below 60
   * that the floor of `seconds % 60` always is: the text splits at its colon back into the
   * two numbers.
   */
  function Clock(minutes: nat, remaining: nat): (r: string)
    requires remaining < 60
    ensures ClockShaped(r) && MinutesField(r) == minutes && SecondsField(r) == remaining
  {
    var ms := Decimal.NatToString(minutes);
    var ps := Decimal.PadStart(Decimal.NatToString(remaining), 2, '0');
    TwoDigits(remaining);
    Decimal.ValueOfNatToString(minutes);
    ClockFields(ms, ps);
    ms + ":" + ps
  }

  /** Minutes digits, a colon, and two seconds digits. */
  predicate ClockShaped(r: string)
  {
    && |r| >= 4 && r[|r| - 3] == ':'
    && (forall k :: 0 <= k < |r| && k != |r| - 3 ==> Decimal.IsDigit(r[k]))
  }

  /** The number before the colon of a clock text. */
  function MinutesField(r: string): nat
    requires ClockShaped(r)
  {
    Decimal.Value(r[..|r| - 3])
  }

  /** The number after the colon of a clock text. */
  function SecondsField(r: string): nat
    requires ClockShaped(r)
  {
    Decimal.Value(r[|r| - 2..])
  }

  /**
   * A known, non-zero duration prints as minutes, a colon and exactly two second digits, and
   * reading the two numbers back gives the whole seconds with fewer than 60 in the second part.
   */
  lemma FormatDurationClock(d: Seconds)
    requires d != 0.0
    ensures var r := FormatDuration(Some(d));
      && ClockShaped(r)
      && SecondsField(r) < 60
      && 60 * MinutesField(r) + SecondsField(r) == d.Floor
  {
    var parts := ClockParts(d);
    assert FormatDuration(Some(d)) == Clock(parts.0, parts.1);
  }

  /** Digits, a colon and two digits split back into the two digit strings. */
  lemma ClockFields(ms: string, ps: string)
    requires |ms| >= 1 && forall k :: 0 <= k < |ms| ==> Decimal.IsDigit(ms[k])
    requires |ps| == 2 && Decimal.IsDigit(ps[0]) && Decimal.IsDigit(ps[1])
    ensures var r := ms + ":" + ps;
      && ClockShaped(r)
      && MinutesField(r) == Decimal.Value(ms)
      && SecondsField(r) == Decimal.Value(ps)
  {
    var r := ms + ":" + ps;
    assert r[..|r| - 3] == ms;
    assert r[|r| - 2..] == ps;
    forall k | 0 <= k < |r| && k != |r| - 3
      ensures Decimal.IsDigit(r[k])
    {
      if k < |ms| {
        assert r[k] == ms[k];
      } else if k == |ms| + 1 {
        assert r[k] == ps[0];
      } else {
        assert r[k] == ps[1];
      }
    }
  }

  /** The seconds field: two digits whose value is `n`. */
  lemma TwoDigits(n: nat)
    requires n < 60
    ensures var ps := Decimal.PadStart(Decimal.NatToString(n), 2, '0');
      |ps| == 2 && Decimal.IsDigit(ps[0]) && Decimal.IsDigit(ps[1]) && Decimal.Value(ps) == n
  {
    var rs := Decimal.NatToString(n);
    var ps := Decimal.PadStart(rs, 2, '0');
    Decimal.ValueOfNatToString(n);
    if |rs| == 1 {
      assert ps == ['0'] + rs;
      Decimal.ValueLeadingZero(rs);
    } else {
      assert ps == rs;
    }
  }

  function Min(a: nat, b: nat): nat
  {
    if a < b then a else b
  }

  /** `files.slice(page * rows, page * rows + rows)`, clamped to the list as `slice` clamps. */
  function PageSlice<T>(files: seq<T>, page: nat, rows: nat): (r: seq<T>)
    ensures |r| <= rows
    ensures forall k :: 0 <= k < |r| ==> page * rows + k < |files| && r[k] == files[page * rows + k]
    ensures page * rows + rows <= |files| ==> |r| == rows
  {
    files[Min(page * rows, |files|)..Min(page * rows + rows, |files|)]
  }

  /** The first `k` pages laid end to end. */
  function FirstPages<T>(files: seq<T>, rows: nat, k: nat): seq<T>
  {
    if k == 0 then [] else FirstPages(files, rows, k - 1) + PageSlice(files, k - 1, rows)
  }

  /** Pages never overlap or skip: the first `k` pages are exactly the first k·rows files. */
  lemma {:induction false} FirstPagesArePrefix<T>(files: seq<T>, rows: nat, k: nat)
    ensures FirstPages(files, rows, k) == files[..Min(k * rows, |files|)]
  {
    if k > 0 {
      FirstPagesArePrefix(files, rows, k - 1);
      assert (k - 1) * rows + rows == k * rows;
      assert (k - 1) * rows <= k * rows;
      var a, b := Min((k - 1) * rows, |files|), Min(k * rows, |files|);
      assert files[..a] + files[a..b] == files[..b];
    }
  }

  /** The pages the table offers, ⌈n/rows⌉ of them, together show every file once, in order. */
  lemma PagesCoverFiles<T>(files: seq<T>, rows: nat)
    requires 0 < rows
    ensures FirstPages(files, rows, (|files| + rows - 1) / rows) == files
  {
    var k := (|files| + rows - 1) / rows;
    FirstPagesArePrefix(files, rows, k);
    assert k * rows + (|files| + rows - 1) % rows == |files| + rows - 1;
    assert k * rows >= |files|;
  }

  /**
   * The panel's component state. `store` is the shared store it dispatches to; the
   * other fields are the panel's own `useState` values and the cancel ref.
   */
  class Component {
    const store: Store
    var filesToUpload: seq<FileBlob>
    var isDialogOpen: bool
    var isUploading: bool
    var uploadProgress: nat
    var uploadCancel: bool
    var page: nat
    var rowsPerPage: nat
    var fileToDelete: Option<(string, string)>

    constructor (store: Store)
      ensures this.store == store
      ensures filesToUpload == [] && !isDialogOpen && !isUploading && uploadProgress == 0
      ensures !uploadCancel && page == 0 && rowsPerPage == 10 && fileToDelete == None
    {
      this.store := store;
      filesToUpload := [];
      isDialogOpen := false;
      isUploading := false;
      uploadProgress := 0;
      uploadCancel := false;
      page := 0;
      rowsPerPage := 10;
      fileToDelete := None;
    }

    /** The focused character as the panel sees it in its current render. */
    function SelectedCharacter(): (r: Option<Character>)
      reads this, store
      ensures r.Some? ==> r.value in store.state.characters && store.state.selectedCharacterId == Some(r.value.id)
      ensures r.None? <==> forall c :: c in store.state.characters ==> store.state.selectedCharacterId != Some(c.id)
    {
      FindCharacter(store.state.characters, store.state.selectedCharacterId)
    }

    /** The shared tail of the drop and picker handlers: queue the audio files, if any. */
    method QueueAudio(files: seq<FileBlob>)
      modifies this`filesToUpload, this`isDialogOpen
      ensures AudioOnly(files) == [] ==> filesToUpload == old(filesToUpload) && isDialogOpen == old(isDialogOpen)
      ensures AudioOnly(files) != [] ==> filesToUpload == AudioOnly(files) && isDialogOpen
    {
      var audio := AudioOnly(files);
      if |audio| > 0 {
        filesToUpload := audio;
        isDialogOpen := true;
      }
    }

    /** `handleDrop`: nothing happens while no character is focused. */
    method HandleDrop(dropped: seq<FileBlob>)
      modifies this`filesToUpload, this`isDialogOpen
      ensures SelectedCharacter().None? || AudioOnly(dropped) == [] ==>
                filesToUpload == old(filesToUpload) && isDialogOpen == old(isDialogOpen)
      ensures SelectedCharacter().Some? && AudioOnly(dropped) != [] ==>
                filesToUpload == AudioOnly(dropped) && isDialogOpen
    {
      if SelectedCharacter().None? {
        return;
      }
      QueueAudio(dropped);
    }

    /** `handleFileSelect`: the input's file list may be `null`. */
    method HandleFileSelect(picked: Option<seq<FileBlob>>)
      modifies this`filesToUpload, this`isDialogOpen
      ensures picked.None? || SelectedCharacter().None? || AudioOnly(picked.value) == [] ==>
                filesToUpload == old(filesToUpload) && isDialogOpen == old(isDialogOpen)
      ensures picked.Some? && SelectedCharacter().Some? && AudioOnly(picked.value) != [] ==>
                filesToUpload == AudioOnly(picked.value) && isDialogOpen
    {
      if picked.None? || SelectedCharacter().None? {
        return;
      }
      QueueAudio(picked.value);
    }

    /**
     * `processFiles`: one file at a time, the cancel flag read before each, one dispatch per
     * file that got through, and the progress recomputed after every attempted file.
     */
    method ProcessFiles(io: nat -> FileIo)
      modifies this, store
      ensures old(SelectedCharacter()).None? || old(filesToUpload) == [] ==>
                unchanged(this) && store.state == old(store.state)
      ensures old(SelectedCharacter()).Some? && old(filesToUpload) != [] ==>
        var files := old(filesToUpload);
        var k := Attempted(io, |files|);
        && store.state == ApplyPlan(old(store.state), Plan(old(SelectedCharacter()).value, files, io, k))
        && uploadProgress == Percent.Progress(k, |files|)
        && uploadCancel == CancelsAfter(io, k - 1)
        && !isUploading && filesToUpload == [] && !isDialogOpen
        && page == old(page) && rowsPerPage == old(rowsPerPage) && fileToDelete == old(fileToDelete)
    {
      var selected := SelectedCharacter();
      if selected.None? || |filesToUpload| == 0 {
        return;
      }
      RunBatch(selected.value, filesToUpload, io);
    }

    /** The body of `processFiles` once a character is focused and files are queued. */
    method RunBatch(character: Character, files: seq<FileBlob>, io: nat -> FileIo)
      requires files != []
      modifies this`isUploading, this`uploadProgress, this`uploadCancel, this`filesToUpload, this`isDialogOpen, store
      ensures var k := Attempted(io, |files|);
        && store.state == ApplyPlan(old(store.state), Plan(character, files, io, k))
        && uploadProgress == Percent.Progress(k, |files|)
        && uploadCancel == CancelsAfter(io, k - 1)
        && !isUploading && filesToUpload == [] && !isDialogOpen
    {
      isUploading := true;
      uploadProgress := 0;
      uploadCancel := false;
      var total := |files|;
      ghost var start := store.state;
      var i := 0;
      while i < total
        invariant 0 <= i <= total
        invariant uploadCancel <==> 0 < i && CancelsAfter(io, i - 1)
        invariant forall j :: 0 <= j && j + 1 < i ==> !CancelsAfter(io, j)
        invariant store.state == ApplyPlan(start, Plan(character, files, io, i))
        invariant uploadProgress == if i == 0 then 0 else Percent.Progress(i, total)
      {
        if uploadCancel {
          break;
        }
        IngestOne(character, files, io, i, start);
        i := i + 1;
      }
      AttemptedUnique(io, total, i);
      isUploading := false;
      filesToUpload := [];
      isDialogOpen := false;
    }

    /**
     * One pass of the loop for file `i`: dispatch its action, if any, count it as processed,
     * and cancel when the user pressed cancel while this file was awaited.
     */
    method IngestOne(character: Character, files: seq<FileBlob>, io: nat -> FileIo, i: nat, ghost start: AppState)
      requires i < |files| && store.state == ApplyPlan(start, Plan(character, files, io, i))
      requires !uploadCancel
      modifies this`isUploading, this`uploadProgress, this`uploadCancel, this`filesToUpload, this`isDialogOpen, store
      ensures store.state == ApplyPlan(start, Plan(character, files, io, i + 1))
      ensures uploadProgress == Percent.Progress(i + 1, |files|)
      ensures uploadCancel == CancelsAfter(io, i)
    {
      var action := IngestAction(character, files[i], io(i));
      PlanStep(start, character, files, io, i);
      if action.Some? {
        store.Dispatch(action.value);
      }
      uploadProgress := Percent.Progress(i + 1, |files|);
      if action.Some? && io(i).cancelClicked {
        CancelUpload();
      }
    }

    /** `cancelUpload`: raises the flag the loop reads and closes the dialog. */
    method CancelUpload()
      modifies this`uploadCancel, this`isUploading, this`filesToUpload, this`isDialogOpen
      ensures uploadCancel && !isUploading && filesToUpload == [] && !isDialogOpen
    {
      uploadCancel := true;
      isUploading := false;
      filesToUpload := [];
      isDialogOpen := false;
    }

    /** First step of deleting a file: remember which one. */
    method OpenDeleteDialog(characterId: string, fileId: string)
      modifies this`fileToDelete
      ensures fileToDelete == Some((characterId, fileId))
    {
      fileToDelete := Some((characterId, fileId));
    }

    /** Second step: delete the remembered file, if any, and forget it. */
    method HandleDeleteFile()
      modifies this`fileToDelete, store
      ensures old(fileToDelete).None? ==> store.state == old(store.state) && fileToDelete == None
      ensures old(fileToDelete).Some? ==>
        store.state == Reduce(old(store.state), DeleteAudioFile(old(fileToDelete).value.0, old(fileToDelete).value.1))
        && fileToDelete == None
    {
      if fileToDelete.Some? {
        store.Dispatch(DeleteAudioFile(fileToDelete.value.0, fileToDelete.value.1));
        fileToDelete := None;
      }
    }

    /** The delete dialog's cancel button and its close event. */
    method CancelDeleteFile()
      modifies this`fileToDelete
      ensures fileToDelete == None
    {
      fileToDelete := None;
    }

    /** The rows shown: the current page of the focused character's files. */
    function DisplayedFiles(): (r: seq<AudioFile>)
      reads this, store
      ensures |r| <= rowsPerPage
      ensures SelectedCharacter().None? ==> r == []
      ensures SelectedCharacter().Some? ==>
        var files := SelectedCharacter().value.audioFiles;
        forall k :: 0 <= k < |r| ==> page * rowsPerPage + k < |files| && r[k] == files[page * rowsPerPage + k]
    {
      match SelectedCharacter()
      case None => []
      case Some(c) => PageSlice(c.audioFiles, page, rowsPerPage)
    }

    method HandleChangePage(newPage: nat)
      modifies this`page
      ensures page == newPage
    {
      page := newPage;
    }

    /** Choosing a page size returns to the first page. */
    method HandleChangeRowsPerPage(rows: nat)
      modifies this`rowsPerPage, this`page
      ensures rowsPerPage == rows && page == 0
    {
      rowsPerPage := rows;
      page := 0;
    }
  }
}
