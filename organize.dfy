/**
 * Where a photo or video goes and the run over a directory listing.
 *
 * The destination root is a parameter, the metadata readers' answers are
 * inputs, and the file system is an abstract map from path to content that
 * the move updates.
 */
module Organize {

  import opened Wrappers
  import opened Decimal
  import opened Escape
  import opened Classify
  import opened Strptime

  /** The `file_type` argument of organize_file. */
  datatype FileType = PhotoType | VideoType

  function TypeName(t: FileType): string {
    match t
    case PhotoType => "photo"
    case VideoType => "video"
  }

  /** Videos shorter than this many seconds are live-photo clips. */
  const LivePhotoDuration: real := 3.5

  /**
   * What the metadata readers report for one file: the raw date string and,
   * for videos, the duration. `duration` is None when the probe gave no
   * duration or an empty one (the falsy cases); otherwise it is the number the
   * string denotes, so "0" is Some(0.0).
   */
  datatype Metadata = Metadata(dateStr: Option<string>, duration: Option<real>)

  /**
   * What reading a file's metadata gives: the readers' answers, or Failed when
   * an error escapes that organize_file does not catch (PIL cannot open the
   * photo, the probe program cannot be started, a duration is not a number
   * and float raises ValueError, or a photo's date value is not a string and
   * strptime raises TypeError). Such an error ends the run before the file is
   * moved.
   */
  datatype Reading = Read(meta: Metadata) | Failed

  /** The three kinds of destination. */
  datatype Placement = LivePhoto | Dated(year: int, month: int) | Undated

  /** The date of a file of the given type from its raw date string. */
  function FileDate(t: FileType, dateStr: Option<string>): (r: Option<DateTime>)
    ensures r.Some? ==> ValidDateTime(r.value)
  {
    match t
    case PhotoType => ExtractDate(dateStr, PhotoFormat)
    case VideoType => VideoDate(dateStr)
  }

  predicate IsLivePhoto(t: FileType, meta: Metadata) {
    t == VideoType && meta.duration.Some? && meta.duration.value < LivePhotoDuration
  }

  /** The decision organize_file makes: the short-video test first, then the date. */
  function Place(t: FileType, meta: Metadata): (p: Placement)
    ensures p == LivePhoto <==> IsLivePhoto(t, meta)
    ensures p.Dated? <==> !IsLivePhoto(t, meta) && FileDate(t, meta.dateStr).Some?
    ensures p.Dated? ==> 1 <= p.year <= 9999 && 1 <= p.month <= 12
    ensures p.Dated? ==> p.year == FileDate(t, meta.dateStr).value.year && p.month == FileDate(t, meta.dateStr).value.month
  {
    if IsLivePhoto(t, meta) then LivePhoto
    else
      match FileDate(t, meta.dateStr)
      case Some(d) => Dated(d.year, d.month)
      case None => Undated
  }

  /** organize_file's return value: True unless the file went to no_date. */
  function Returned(p: Placement): bool {
    p != Undated
  }

  predicate ValidPlacement(p: Placement) {
    p.Dated? ==> 1 <= p.year <= 9999 && 1 <= p.month <= 12
  }

  /** The directory a file goes to, relative to the destination root. */
  function Leaf(t: FileType, p: Placement): string
    requires ValidPlacement(p)
  {
    match p
    case LivePhoto => "live_photo"
    case Dated(y, m) => TypeName(t) + "\\" + Show(y) + "\\" + Padded(m, 2)
    case Undated => TypeName(t) + "\\no_date"
  }

  /** The directory a file goes to: `f"{root}\\live_photo"`, `f"{root}\\{type}\\{year}\\{month:02d}"` or `f"{root}\\{type}\\no_date"`. */
  function DestinationDir(root: string, t: FileType, p: Placement): string
    requires ValidPlacement(p)
  {
    Join(root, Leaf(t, p))
  }

  predicate IsSeparator(c: char) {
    c == '\\' || c == '/'
  }

  predicate HasNoSeparator(name: string) {
    forall i :: 0 <= i < |name| ==> !IsSeparator(name[i])
  }

  /** `os.path.basename` on Windows: what follows the last separator. */
  function Basename(path: string): (r: string)
    ensures HasNoSeparator(r) && |r| <= |path|
  {
    if path == [] || IsSeparator(path[|path| - 1]) then []
    else Basename(path[..|path| - 1]) + [path[|path| - 1]]
  }

  /** `f"{directory}\\{name}"`, and `os.path.join` for a directory that does not end in a separator. */
  function Join(dir: string, name: string): string {
    dir + "\\" + name
  }

  /** Where a listed file is moved. */
  function Destination(root: string, t: FileType, p: Placement, source: string): (r: string)
    requires ValidPlacement(p)
    ensures Basename(r) == Basename(source)
  {
    BasenameOfJoin(DestinationDir(root, t, p), Basename(source));
    Join(DestinationDir(root, t, p), Basename(source))
  }

  /** The basename of a path built from a directory and a listed name is that name. */
  lemma {:induction false} BasenameOfJoin(dir: string, name: string)
    requires HasNoSeparator(name)
    ensures Basename(Join(dir, name)) == name
  {
    var path := Join(dir, name);
    if name == [] {
    } else {
      var shorter := name[..|name| - 1];
      assert HasNoSeparator(shorter);
      BasenameOfJoin(dir, shorter);
      assert path[..|path| - 1] == Join(dir, shorter);
      assert name == shorter + [name[|name| - 1]];
    }
  }

  /** A short clip goes to live_photo directly under the root, keeping its basename, and counts as returned. */
  lemma LivePhotoDestination(root: string, source: string, meta: Metadata)
    requires IsLivePhoto(VideoType, meta)
    ensures Destination(root, VideoType, Place(VideoType, meta), source) == root + "\\live_photo\\" + Basename(source)
    ensures Returned(Place(VideoType, meta))
  {
  }

  /**
   * A dated leaf reads back as its parts: the type and a separator, the year
   * in decimal, a separator, and the month in exactly two digits.
   */
  lemma DatedLeafReadsBack(t: FileType, y: int, m: int)
    requires ValidPlacement(Dated(y, m))
    ensures var a := Leaf(t, Dated(y, m));
      && |a| >= 10 && a[..6] == TypeName(t) + "\\" && a[|a| - 3] == '\\'
      && AllDigits(a[6..|a| - 3]) && Value(a[6..|a| - 3]) == y
      && AllDigits(a[|a| - 2..]) && Value(a[|a| - 2..]) == m
  {
    var front := TypeName(t) + "\\";
    var ys := Show(y);
    var tail := "\\" + Padded(m, 2);
    var a := Leaf(t, Dated(y, m));
    assert |front| == 6 && |tail| == 3;
    assert a == front + ys + tail;
    ThreeParts(front, ys, tail);
    assert a[|a| - 3] == tail[0];
    assert a[|a| - 2..] == tail[1..] == Padded(m, 2);
    ValueOfShow(y);
    assert Pow10(2) == 100;
    ValueOfPadded(m, 2);
  }

  /** The three parts of a concatenation can be cut back out of it. */
  lemma ThreeParts(p: string, x: string, q: string)
    ensures var a := p + x + q;
      && a[..|p|] == p && a[|p|..|a| - |q|] == x && a[|a| - |q|..] == q
      && forall i :: 0 <= i < |q| ==> a[|a| - |q| + i] == q[i]
  {
  }

  /** A photo never goes to live_photo, whatever its metadata says about a duration. */
  lemma PhotosAreNeverLivePhotos(meta: Metadata)
    ensures Place(PhotoType, meta) != LivePhoto
  {
  }

  /**
   * A dated photo's year and month are the numbers written in its date string:
   * the first four characters, and the one or two digits after the first separator.
   */
  lemma PhotoPlacedByWrittenDate(s: string, duration: Option<real>)
    requires Place(PhotoType, Metadata(Some(s), duration)).Dated?
    ensures var p := Place(PhotoType, Metadata(Some(s), duration));
      && |s| >= 5 && AllDigits(s[..4]) && p.year == Value(s[..4])
      && 1 <= DigitRun(s[5..]) <= 2 && p.month == Value(s[5..][..DigitRun(s[5..])])
  {
    ExtractDateIsParse(s, PhotoFormat);
    DateAsWritten(s, PhotoFormat);
  }

  /** A video whose date string fits neither format, and that is not short, goes to no_date. */
  lemma UndatedVideo(s: string, duration: Option<real>)
    requires duration.None? || duration.value >= LivePhotoDuration
    requires Parse(s, VideoFractionFormat).None? && Parse(s, VideoFormat).None?
    ensures Place(VideoType, Metadata(Some(s), duration)) == Undated
  {
    ExtractDateIsParse(s, VideoFractionFormat);
    ExtractDateIsParse(s, VideoFormat);
  }

  lemma PaddedInjective(a: nat, b: nat)
    requires a < 100 && b < 100 && Padded(a, 2) == Padded(b, 2)
    ensures a == b
  {
    assert Pow10(2) == 100;
    ValueOfPadded(a, 2);
    ValueOfPadded(b, 2);
  }

  /** Two type/year/month leaves are equal only for the same type, year and month. */
  lemma DatedLeafInjective(t1: FileType, y1: int, m1: int, t2: FileType, y2: int, m2: int)
    requires ValidPlacement(Dated(y1, m1)) && ValidPlacement(Dated(y2, m2))
    requires Leaf(t1, Dated(y1, m1)) == Leaf(t2, Dated(y2, m2))
    ensures t1 == t2 && y1 == y2 && m1 == m2
  {
    var a := Leaf(t1, Dated(y1, m1));
    var front1, front2 := TypeName(t1) + "\\", TypeName(t2) + "\\";
    var tail1, tail2 := "\\" + Padded(m1, 2), "\\" + Padded(m2, 2);
    assert |front1| == |front2| == 6 && |tail1| == |tail2| == 3;
    assert a == front1 + Show(y1) + tail1;
    assert a == front2 + Show(y2) + tail2;
    ThreeParts(front1, Show(y1), tail1);
    ThreeParts(front2, Show(y2), tail2);
    assert TypeName(t1) == front1[..5] && TypeName(t2) == front2[..5];
    ShowInjective(y1, y2);
    assert Padded(m1, 2) == tail1[1..] && Padded(m2, 2) == tail2[1..];
    PaddedInjective(m1, m2);
  }

  /** What tells the three kinds of leaf apart: the first character, and the one after the type. */
  lemma LeafShape(t: FileType, p: Placement)
    requires ValidPlacement(p)
    ensures var a := Leaf(t, p);
      && |a| >= 7
      && (p == LivePhoto <==> a[0] == 'l')
      && (p.Dated? ==> IsDigit(a[6]))
      && (p.Undated? ==> a[6] == 'n')
  {
  }

  lemma LeafInjective(t1: FileType, p1: Placement, t2: FileType, p2: Placement)
    requires ValidPlacement(p1) && ValidPlacement(p2)
    requires Leaf(t1, p1) == Leaf(t2, p2)
    ensures p1 == p2 && (p1 != LivePhoto ==> t1 == t2)
  {
    LeafShape(t1, p1);
    LeafShape(t2, p2);
    if p1.Dated? && p2.Dated? {
      DatedLeafInjective(t1, p1.year, p1.month, t2, p2.year, p2.month);
    } else if p1.Undated? && p2.Undated? {
      var a := Leaf(t1, p1);
      assert a[..5] == TypeName(t1) && a[..5] == TypeName(t2);
    }
  }

  /**
   * Different placements get different directories: live_photo, each
   * type/year/month and each type's no_date are all distinct.
   */
  lemma DestinationDirInjective(root: string, t1: FileType, p1: Placement, t2: FileType, p2: Placement)
    requires ValidPlacement(p1) && ValidPlacement(p2)
    requires DestinationDir(root, t1, p1) == DestinationDir(root, t2, p2)
    ensures p1 == p2 && (p1 != LivePhoto ==> t1 == t2)
  {
    var prefix := root + "\\";
    assert Leaf(t1, p1) == DestinationDir(root, t1, p1)[|prefix|..];
    assert Leaf(t2, p2) == DestinationDir(root, t2, p2)[|prefix|..];
    LeafInjective(t1, p1, t2, p2);
  }

  // ---------------------------------------------------------------------------
  // Moving files

  type Content = seq<bv8>

  /** `os.rename(source, target)` on a map from path to content: the target is written, the source removed. */
  function Moved(files: map<string, Content>, source: string, target: string): (r: map<string, Content>)
    requires source in files
    ensures target in r && r[target] == files[source]
    ensures source != target ==> source !in r
    ensures forall p :: p != source && p != target ==> (p in r <==> p in files)
    ensures forall p :: p != source && p != target && p in r ==> r[p] == files[p]
  {
    (files - {source})[target := files[source]]
  }

  /** The files the organizer moves: the file system as a map from path to content. */
  class Volume {
    var files: map<string, Content>

    constructor (files: map<string, Content>)
      ensures this.files == files
    {
      this.files := files;
    }

    /** `os.rename`; false stands for the FileNotFoundError raised when the source is missing. */
    method Rename(source: string, target: string) returns (ok: bool)
      modifies this
      ensures ok == (source in old(files))
      ensures files == if ok then Moved(old(files), source, target) else old(files)
    {
      ok := source in files;
      if ok {
        files := Moved(files, source, target);
      }
    }
  }

  /** How a call of organize_file ends: its return value, or the exception that stops the run. */
  datatype Outcome = Organized(returned: bool) | Aborted

  /** `f"{source_directory}\\{name}"`: the path of a listed name. */
  function SourcePath(sourceDir: string, name: string): string {
    Join(sourceDir, name)
  }

  /**
   * organize_file: decide the placement, move the file into its directory
   * under the same basename, and report whether it was dated (a live-photo
   * clip counts as dated). The reading is what the metadata readers gave for
   * it; when they raised, or the file is missing, the run stops and nothing moves.
   */
  method OrganizeFile(vol: Volume, root: string, file: string, t: FileType, reading: Reading) returns (outcome: Outcome)
    modifies vol
    ensures if reading.Read? && file in old(vol.files) then
        var p := Place(t, reading.meta);
        && outcome == Organized(Returned(p))
        && vol.files == Moved(old(vol.files), file, Destination(root, t, p, file))
      else
        outcome == Aborted && vol.files == old(vol.files)
  {
    if reading.Failed? {
      return Aborted;
    }
    var p := Place(t, reading.meta);
    var dir := DestinationDir(root, t, p);
    var ok := vol.Rename(file, Join(dir, Basename(file)));
    if ok {
      outcome := Organized(p != Undated);
    } else {
      outcome := Aborted;
    }
  }

  // ---------------------------------------------------------------------------
  // The run over a listing

  /** A listed name with what its metadata readers would give. */
  datatype Entry = Entry(name: string, reading: Reading)

  /** The three lists the run fills: successful, no_date and unssupported. */
  datatype Tally = Tally(successful: seq<string>, noDate: seq<string>, unsupported: seq<string>)

  /** The state after some of the listing: the files, the lists, and whether the run is still going. */
  datatype RunState = RunState(files: map<string, Content>, tally: Tally, going: bool)

  function TypeOf(k: Kind): FileType
    requires k != Unsupported
  {
    if k == Photo then PhotoType else VideoType
  }

  /** One iteration of the loop. */
  function RunStep(st: RunState, sourceDir: string, root: string, e: Entry): RunState {
    if !st.going then st
    else
      var k := KindOf(e.name);
      if k == Unsupported then
        st.(tally := st.tally.(unsupported := st.tally.unsupported + [e.name]))
      else
        var t := TypeOf(k);
        var file := SourcePath(sourceDir, e.name);
        if e.reading.Failed? || file !in st.files then st.(going := false)
        else
          var p := Place(t, e.reading.meta);
          var tally :=
            if Returned(p) then st.tally.(successful := st.tally.successful + [e.name])
            else st.tally.(noDate := st.tally.noDate + [e.name]);
          RunState(Moved(st.files, file, Destination(root, t, p, file)), tally, true)
  }

  /** The state after the loop has run over `entries`, from `files` and empty lists. */
  function RunSpec(files: map<string, Content>, sourceDir: string, root: string, entries: seq<Entry>): RunState {
    if entries == [] then RunState(files, Tally([], [], []), true)
    else RunStep(RunSpec(files, sourceDir, root, entries[..|entries| - 1]), sourceDir, root, entries[|entries| - 1])
  }

  /** Once the run has stopped, later entries change nothing. */
  lemma {:induction false} StoppedStaysStopped(files: map<string, Content>, sourceDir: string, root: string, entries: seq<Entry>, k: nat)
    requires k <= |entries| && !RunSpec(files, sourceDir, root, entries[..k]).going
    ensures RunSpec(files, sourceDir, root, entries) == RunSpec(files, sourceDir, root, entries[..k])
    decreases |entries| - k
  {
    if k < |entries| {
      assert entries[..k + 1][..k] == entries[..k];
      StoppedStaysStopped(files, sourceDir, root, entries, k + 1);
    } else {
      assert entries[..k] == entries;
    }
  }

  /** One more entry is one more step. */
  lemma RunSpecStep(files: map<string, Content>, sourceDir: string, root: string, entries: seq<Entry>, i: nat)
    requires i < |entries|
    ensures RunSpec(files, sourceDir, root, entries[..i + 1])
      == RunStep(RunSpec(files, sourceDir, root, entries[..i]), sourceDir, root, entries[i])
  {
    assert entries[..i + 1][..i] == entries[..i];
  }

  /** One iteration for any other name: it is appended to the unsupported list and nothing moves. */
  lemma UnsupportedStep(files: map<string, Content>, tally: Tally, sourceDir: string, root: string, e: Entry)
    requires KindOf(e.name) == Unsupported
    ensures RunStep(RunState(files, tally, true), sourceDir, root, e)
      == RunState(files, tally.(unsupported := tally.unsupported + [e.name]), true)
  {
  }

  /** One iteration for a photo or a video, given what organize_file did. */
  lemma MediaStep(files: map<string, Content>, tally: Tally, sourceDir: string, root: string, e: Entry,
                  outcome: Outcome, after: map<string, Content>)
    requires KindOf(e.name) != Unsupported
    requires var t := TypeOf(KindOf(e.name));
      var file := SourcePath(sourceDir, e.name);
      if e.reading.Read? && file in files then
        var p := Place(t, e.reading.meta);
        outcome == Organized(Returned(p)) && after == Moved(files, file, Destination(root, t, p, file))
      else
        outcome == Aborted && after == files
    ensures RunStep(RunState(files, tally, true), sourceDir, root, e) ==
      match outcome
      case Aborted => RunState(files, tally, false)
      case Organized(returned) =>
        RunState(after,
                 if returned then tally.(successful := tally.successful + [e.name])
                 else tally.(noDate := tally.noDate + [e.name]),
                 true)
  {
  }

  /** One iteration of the loop: classify the name, organize a photo or video, append the name to a list. */
  method Visit(vol: Volume, sourceDir: string, root: string, e: Entry,
               successful: seq<string>, noDate: seq<string>, unsupported: seq<string>)
    returns (successful': seq<string>, noDate': seq<string>, unsupported': seq<string>, going: bool)
    modifies vol
    ensures RunStep(RunState(old(vol.files), Tally(successful, noDate, unsupported), true), sourceDir, root, e)
      == RunState(vol.files, Tally(successful', noDate', unsupported'), going)
  {
    successful', noDate', unsupported', going := successful, noDate, unsupported, true;
    var k := KindOf(e.name);
    if k == Unsupported {
      UnsupportedStep(vol.files, Tally(successful, noDate, unsupported), sourceDir, root, e);
      unsupported' := unsupported + [e.name];
    } else {
      var file := SourcePath(sourceDir, e.name);
      ghost var before := vol.files;
      var outcome := OrganizeFile(vol, root, file, TypeOf(k), e.reading);
      MediaStep(before, Tally(successful, noDate, unsupported), sourceDir, root, e, outcome, vol.files);
      match outcome
      case Aborted =>
        going := false;
      case Organized(returned) =>
        if returned {
          successful' := successful + [e.name];
        } else {
          noDate' := noDate + [e.name];
        }
    }
  }

  /**
   * The `__main__` block from the listing on: both directory arguments have
   * their backslashes doubled, then every listed name is classified, moved if
   * it is a photo or a video, and appended to one of the three lists.
   */
  method Run(vol: Volume, sourceArg: string, destinationArg: string, entries: seq<Entry>)
    returns (tally: Tally, completed: bool)
    modifies vol
    ensures var st := RunSpec(old(vol.files), Double(sourceArg), Double(destinationArg), entries);
      vol.files == st.files && tally == st.tally && completed == st.going
  {
    ghost var files0 := vol.files;
    var sourceDir := Double(sourceArg);
    var root := Double(destinationArg);
    var successful: seq<string> := [];
    var noDate: seq<string> := [];
    var unsupported: seq<string> := [];
    completed := true;
    var i := 0;
    assert entries[..0] == [];
    ghost var st := RunSpec(files0, sourceDir, root, []);
    while i < |entries| && completed
      invariant 0 <= i <= |entries|
      invariant st == RunSpec(files0, sourceDir, root, entries[..i])
      invariant st == RunState(vol.files, Tally(successful, noDate, unsupported), completed)
    {
      RunSpecStep(files0, sourceDir, root, entries, i);
      st := RunStep(st, sourceDir, root, entries[i]);
      successful, noDate, unsupported, completed := Visit(vol, sourceDir, root, entries[i], successful, noDate, unsupported);
      i := i + 1;
    }
    if completed {
      assert entries[..i] == entries;
    } else {
      StoppedStaysStopped(files0, sourceDir, root, entries, i);
    }
    tally := Tally(successful, noDate, unsupported);
  }

  // ---------------------------------------------------------------------------
  // What a run does

  /** Which list the loop appends an entry to. */
  datatype Bucket = SuccessfulBucket | NoDateBucket | UnsupportedBucket

  predicate IsMedia(e: Entry) {
    KindOf(e.name) != Unsupported
  }

  /** The loop gets past this entry without an error from the metadata readers. */
  predicate ReadsCleanly(e: Entry) {
    IsMedia(e) ==> e.reading.Read?
  }

  predicate AllReadCleanly(entries: seq<Entry>) {
    forall i :: 0 <= i < |entries| ==> ReadsCleanly(entries[i])
  }

  /** The list an entry lands in, decided from its name and metadata alone. */
  function BucketOf(e: Entry): (b: Bucket)
    requires ReadsCleanly(e)
    ensures b == UnsupportedBucket <==> !IsMedia(e)
    ensures b == NoDateBucket <==> IsMedia(e) && Place(TypeOf(KindOf(e.name)), e.reading.meta) == Undated
  {
    if !IsMedia(e) then UnsupportedBucket
    else if Returned(Place(TypeOf(KindOf(e.name)), e.reading.meta)) then SuccessfulBucket
    else NoDateBucket
  }

  /** The lists after appending an entry's name to the end of its bucket's list. */
  function Appended(t: Tally, e: Entry): Tally
    requires ReadsCleanly(e)
  {
    match BucketOf(e)
    case SuccessfulBucket => t.(successful := t.successful + [e.name])
    case NoDateBucket => t.(noDate := t.noDate + [e.name])
    case UnsupportedBucket => t.(unsupported := t.unsupported + [e.name])
  }

  /** The three lists a run over the whole listing ends with: each name appended to its bucket, in listing order. */
  function TallyOf(entries: seq<Entry>): Tally
    requires AllReadCleanly(entries)
  {
    if entries == [] then Tally([], [], [])
    else
      var init := entries[..|entries| - 1];
      assert forall i :: 0 <= i < |init| ==> init[i] == entries[i];
      Appended(TallyOf(init), entries[|entries| - 1])
  }

  function Names(entries: seq<Entry>): seq<string> {
    if entries == [] then [] else Names(entries[..|entries| - 1]) + [entries[|entries| - 1].name]
  }

  /** A step that leaves the run going started from a running state and appended the entry to its bucket. */
  lemma StepTally(st: RunState, sourceDir: string, root: string, e: Entry)
    requires RunStep(st, sourceDir, root, e).going
    ensures st.going && ReadsCleanly(e)
    ensures RunStep(st, sourceDir, root, e).tally == Appended(st.tally, e)
  {
  }

  /** A run that did not stop has appended each entry to the list of its bucket, in listing order. */
  lemma {:induction false} RunTally(files: map<string, Content>, sourceDir: string, root: string, entries: seq<Entry>)
    requires RunSpec(files, sourceDir, root, entries).going
    ensures AllReadCleanly(entries)
    ensures RunSpec(files, sourceDir, root, entries).tally == TallyOf(entries)
  {
    if entries != [] {
      var init := entries[..|entries| - 1];
      var last := entries[|entries| - 1];
      var prev := RunSpec(files, sourceDir, root, init);
      StepTally(prev, sourceDir, root, last);
      RunTally(files, sourceDir, root, init);
      CleanSnoc(entries);
    }
  }

  /** A listing reads cleanly exactly when all but its last entry do and its last entry does. */
  lemma CleanSnoc(entries: seq<Entry>)
    requires entries != []
    ensures AllReadCleanly(entries) <==>
      AllReadCleanly(entries[..|entries| - 1]) && ReadsCleanly(entries[|entries| - 1])
  {
    var init := entries[..|entries| - 1];
    assert forall i :: 0 <= i < |init| ==> init[i] == entries[i];
  }

  /**
   * Every entry is in exactly one of the three lists: the lengths add up to the
   * listing's, and together the lists hold each listed name as often as the listing does.
   */
  lemma {:induction false} TallyPartition(entries: seq<Entry>)
    requires AllReadCleanly(entries)
    ensures var t := TallyOf(entries);
      && |t.successful| + |t.noDate| + |t.unsupported| == |entries|
      && multiset(t.successful) + multiset(t.noDate) + multiset(t.unsupported) == multiset(Names(entries))
  {
    if entries != [] {
      var init := entries[..|entries| - 1];
      var last := entries[|entries| - 1];
      CleanSnoc(entries);
      TallyPartition(init);
      AppendedCounts(TallyOf(init), last);
      assert multiset(Names(entries)) == multiset(Names(init)) + multiset{last.name};
    }
  }

  /** Appending an entry adds one name to the three lists together: its own. */
  lemma AppendedCounts(t: Tally, e: Entry)
    requires ReadsCleanly(e)
    ensures var u := Appended(t, e);
      && |u.successful| + |u.noDate| + |u.unsupported| == |t.successful| + |t.noDate| + |t.unsupported| + 1
      && multiset(u.successful) + multiset(u.noDate) + multiset(u.unsupported)
         == multiset(t.successful) + multiset(t.noDate) + multiset(t.unsupported) + multiset{e.name}
  {
    var u := Appended(t, e);
    match BucketOf(e)
    case SuccessfulBucket =>
      assert multiset(u.successful) == multiset(t.successful) + multiset{e.name};
    case NoDateBucket =>
      assert multiset(u.noDate) == multiset(t.noDate) + multiset{e.name};
    case UnsupportedBucket =>
      assert multiset(u.unsupported) == multiset(t.unsupported) + multiset{e.name};
  }

  /** A short clip returns True, so the run counts it as successful. */
  lemma LivePhotoCountsAsSuccessful(e: Entry)
    requires KindOf(e.name) == Video && e.reading.Read?
    requires e.reading.meta.duration.Some? && e.reading.meta.duration.value < LivePhotoDuration
    ensures BucketOf(e) == SuccessfulBucket
  {
  }

  /** Where a listed photo or video is moved to. */
  function Target(sourceDir: string, root: string, e: Entry): string
    requires IsMedia(e) && e.reading.Read?
  {
    var t := TypeOf(KindOf(e.name));
    Destination(root, t, Place(t, e.reading.meta), SourcePath(sourceDir, e.name))
  }

  /** Paths that end in different names are different paths. */
  lemma JoinedNamesDiffer(d1: string, n1: string, d2: string, n2: string)
    requires HasNoSeparator(n1) && HasNoSeparator(n2) && n1 != n2
    ensures Join(d1, n1) != Join(d2, n2)
  {
    BasenameOfJoin(d1, n1);
    BasenameOfJoin(d2, n2);
  }

  /** A listed file keeps its name at its destination. */
  lemma TargetKeepsName(sourceDir: string, root: string, e: Entry)
    requires IsMedia(e) && e.reading.Read? && HasNoSeparator(e.name)
    ensures var t := TypeOf(KindOf(e.name));
      Target(sourceDir, root, e) == Join(DestinationDir(root, t, Place(t, e.reading.meta)), e.name)
  {
    BasenameOfJoin(sourceDir, e.name);
  }

  /**
   * What a run can rely on: the listed names are distinct and contain no
   * separator, every listed photo and video is a file, and no file is moved
   * onto the path of a listed photo or video.
   */
  ghost predicate WellListed(files: map<string, Content>, sourceDir: string, root: string, entries: seq<Entry>) {
    && (forall i :: 0 <= i < |entries| ==> HasNoSeparator(entries[i].name))
    && (forall i, j :: 0 <= i < j < |entries| ==> entries[i].name != entries[j].name)
    && (forall i :: 0 <= i < |entries| && IsMedia(entries[i]) ==> SourcePath(sourceDir, entries[i].name) in files)
    && (forall i :: 0 <= i < |entries| ==> ReadsCleanly(entries[i]))
    && (forall i, j :: 0 <= i < |entries| && 0 <= j < |entries| && IsMedia(entries[i]) && IsMedia(entries[j]) ==>
          Target(sourceDir, root, entries[i]) != SourcePath(sourceDir, entries[j].name))
  }

  lemma {:induction false} RunPrefixMoves(files: map<string, Content>, sourceDir: string, root: string, entries: seq<Entry>, k: nat)
    requires k <= |entries| && WellListed(files, sourceDir, root, entries)
    ensures var st := RunSpec(files, sourceDir, root, entries[..k]);
      && st.going
      && (forall i :: 0 <= i < k && IsMedia(entries[i]) ==>
            Target(sourceDir, root, entries[i]) in st.files
            && st.files[Target(sourceDir, root, entries[i])] == files[SourcePath(sourceDir, entries[i].name)])
      && (forall j :: k <= j < |entries| && IsMedia(entries[j]) ==>
            SourcePath(sourceDir, entries[j].name) in st.files
            && st.files[SourcePath(sourceDir, entries[j].name)] == files[SourcePath(sourceDir, entries[j].name)])
  {
    if k > 0 {
      RunPrefixMoves(files, sourceDir, root, entries, k - 1);
      var prefix := entries[..k];
      assert prefix[..k - 1] == entries[..k - 1];
      var prev := RunSpec(files, sourceDir, root, entries[..k - 1]);
      var st := RunSpec(files, sourceDir, root, prefix);
      var e := entries[k - 1];
      assert st == RunStep(prev, sourceDir, root, e);
      if IsMedia(e) {
        var src := SourcePath(sourceDir, e.name);
        var dst := Target(sourceDir, root, e);
        assert st.files == Moved(prev.files, src, dst);
        forall i | 0 <= i < k - 1 && IsMedia(entries[i])
          ensures Target(sourceDir, root, entries[i]) in st.files
          ensures st.files[Target(sourceDir, root, entries[i])] == files[SourcePath(sourceDir, entries[i].name)]
        {
          TargetKeepsName(sourceDir, root, entries[i]);
          TargetKeepsName(sourceDir, root, e);
          JoinedNamesDiffer(DestinationDir(root, TypeOf(KindOf(entries[i].name)), Place(TypeOf(KindOf(entries[i].name)), entries[i].reading.meta)), entries[i].name,
                            DestinationDir(root, TypeOf(KindOf(e.name)), Place(TypeOf(KindOf(e.name)), e.reading.meta)), e.name);
        }
        forall j | k <= j < |entries| && IsMedia(entries[j])
          ensures SourcePath(sourceDir, entries[j].name) in st.files
          ensures st.files[SourcePath(sourceDir, entries[j].name)] == files[SourcePath(sourceDir, entries[j].name)]
        {
          JoinedNamesDiffer(sourceDir, entries[j].name, sourceDir, e.name);
        }
      }
    }
  }

  /**
   * On a well-formed listing the run goes through to the end, and every photo
   * and video ends up at its destination with the content it had in the source
   * directory.
   */
  lemma RunMovesEveryFile(files: map<string, Content>, sourceDir: string, root: string, entries: seq<Entry>)
    requires WellListed(files, sourceDir, root, entries)
    ensures var st := RunSpec(files, sourceDir, root, entries);
      && st.going
      && forall i :: 0 <= i < |entries| && IsMedia(entries[i]) ==>
           Target(sourceDir, root, entries[i]) in st.files
           && st.files[Target(sourceDir, root, entries[i])] == files[SourcePath(sourceDir, entries[i].name)]
  {
    RunPrefixMoves(files, sourceDir, root, entries, |entries|);
    assert entries[..|entries|] == entries;
  }

  /** The paths a run may change: the source and the destination of every listed photo and video. */
  function Touched(sourceDir: string, root: string, entries: seq<Entry>): set<string> {
    if entries == [] then {}
    else
      var last := entries[|entries| - 1];
      Touched(sourceDir, root, entries[..|entries| - 1])
        + (if IsMedia(last) && last.reading.Read? then {SourcePath(sourceDir, last.name), Target(sourceDir, root, last)} else {})
  }

  /** Every other path, unsupported files among them, is as it was. */
  lemma {:induction false} RunFrame(files: map<string, Content>, sourceDir: string, root: string, entries: seq<Entry>, path: string)
    requires path !in Touched(sourceDir, root, entries)
    ensures var after := RunSpec(files, sourceDir, root, entries).files;
      && (path in after <==> path in files)
      && (path in files ==> after[path] == files[path])
  {
    if entries != [] {
      var init := entries[..|entries| - 1];
      var last := entries[|entries| - 1];
      RunFrame(files, sourceDir, root, init, path);
      StepFrame(RunSpec(files, sourceDir, root, init), sourceDir, root, last, path);
    }
  }

  /** One step changes only the source and the destination of the entry it moves. */
  lemma StepFrame(st: RunState, sourceDir: string, root: string, e: Entry, path: string)
    requires IsMedia(e) && e.reading.Read? ==>
      path != SourcePath(sourceDir, e.name) && path != Target(sourceDir, root, e)
    ensures var after := RunStep(st, sourceDir, root, e).files;
      && (path in after <==> path in st.files)
      && (path in st.files ==> after[path] == st.files[path])
  {
  }
}
