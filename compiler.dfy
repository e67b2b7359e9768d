/** processAlbum: turns one album of the metadata into the ordered list of
    ffmpeg work items, creating output folders on the way and skipping
    targets that are already up to date.

    The spec functions CompilePair, CompileExts, CompileTrack and
    CompileTracks say, per (track, extension) pair, per track and per prefix
    of the album, which pairs become jobs, which notices are reported and how
    the file system changes; ItemsOf turns the jobs into the work items. The
    methods from ProcessPair up to ProcessAlbum follow the source loop for
    loop and are proved against them, and the lemmas at the end state what
    the compiler promises. */
module Compiler {
  import opened Catalog
  import opened Text
  import opened Files
  import opened Ffmpeg

  /** What processAlbum writes to stderr or stdout instead of producing a
      work item. */
  datatype Notice =
    | InputMissing(path: string)        // os.Stat of the rendered file failed
    | InputIsDirectory(path: string)
    | MkdirFailed(folder: string)
    | TargetIsDirectory(path: string)
    | UpToDate(path: string)            // "Skipping ... (is more recent)"

  /** A (track, extension) pair that gets a work item: the 1-based track
      number, the track and the output extension. */
  datatype Job = Job(trackNumber: nat, track: Track, ext: string)

  /** Jobs and notices produced so far, and the file system after them. */
  datatype Step = Step(jobs: seq<Job>, notices: seq<Notice>, fs: Entries)

  function Then(s: Step, t: Step): Step {
    Step(s.jobs + t.jobs, s.notices + t.notices, t.fs)
  }

  function InputPath(md: Metadata, track: Track): string {
    PathJoin(md.inputPath, track.renderedFile + ".wav")
  }

  /** `<OutputPath>/<ext>/<album artist>/<album title>`: album values only,
      never a track's overrides. */
  function TargetFolder(md: Metadata, album: Album, ext: string): string {
    PathJoin(PathJoin(PathJoin(md.outputPath, ext), album.artist), album.title)
  }

  /** `<artist> - <album> - <NN> <title> [<rendered file>].<ext>`. */
  function TargetName(album: Album, trackNumber: nat, track: Track, ext: string): string {
    album.artist + " - " + album.title + " - " + Pad2(trackNumber) + " " + track.title
    + " [" + track.renderedFile + "]." + ext
  }

  function TargetPath(md: Metadata, album: Album, trackNumber: nat, track: Track, ext: string): string {
    PathJoin(TargetFolder(md, album, ext), TargetName(album, trackNumber, track, ext))
  }

  /** A target path is the folder `<OutputPath>/<ext>/<album artist>/<album
      title>/`, taken from the album whatever the track overrides, followed
      by the file name, whose track number has at least two digits and
      denotes the track number. */
  lemma TargetPathShape(md: Metadata, album: Album, trackNumber: nat, track: Track, ext: string)
    ensures var p := TargetPath(md, album, trackNumber, track, ext);
            var folder := md.outputPath + "/" + ext + "/" + album.artist + "/" + album.title + "/";
            var nn := Pad2(trackNumber);
            && |folder| <= |p| && p[..|folder|] == folder
            && p[|folder|..] == album.artist + " - " + album.title + " - " + nn + " " + track.title
                                + " [" + track.renderedFile + "]." + ext
            && |nn| >= 2 && AllDigits(nn) && ParseDecimal(nn) == trackNumber
            && (trackNumber < 10 ==> |nn| == 2 && nn[0] == '0')
  {
    var p := TargetPath(md, album, trackNumber, track, ext);
    var folder := md.outputPath + "/" + ext + "/" + album.artist + "/" + album.title + "/";
    var name := TargetName(album, trackNumber, track, ext);
    assert p == folder + name;
  }

  datatype Decision = Build | SkipUpToDate | SkipDirectory

  /** The staleness rule for a target, given what Stat says about it. */
  function Decide(target: Option<Info>, inputMtime: int, metadataMtime: int): (d: Decision)
    // a missing target is always built
    ensures target.None? ==> d == Build
    // a directory in the way is never built over
    ensures d == SkipDirectory <==> target == Some(Directory)
    // an existing file is skipped exactly when it is strictly newer than both
    ensures target.Some? && target.value.File? ==>
              (d == SkipUpToDate <==> target.value.mtime > inputMtime && target.value.mtime > metadataMtime)
  {
    match target
    case None => Build
    case Some(Directory) => SkipDirectory
    case Some(File(m)) => if m > inputMtime && m > metadataMtime then SkipUpToDate else Build
  }

  /** The work item for one (track, extension) pair. */
  function ItemFor(md: Metadata, album: Album, trackNumber: nat, track: Track, ext: string): WorkItem {
    var input := InputPath(md, track);
    var target := TargetPath(md, album, trackNumber, track, ext);
    WorkItem(input + " to " + target, EncoderArgs(input, target, ext, trackNumber, album, track))
  }

  /** The work items of a list of jobs, one each, in order. */
  function ItemsOf(md: Metadata, album: Album, jobs: seq<Job>): (r: seq<WorkItem>)
    ensures |r| == |jobs|
  {
    seq(|jobs|, i requires 0 <= i < |jobs| => ItemFor(md, album, jobs[i].trackNumber, jobs[i].track, jobs[i].ext))
  }

  lemma ItemsOfAppend(md: Metadata, album: Album, a: seq<Job>, b: seq<Job>)
    ensures ItemsOf(md, album, a + b) == ItemsOf(md, album, a) + ItemsOf(md, album, b)
  {
    var l := ItemsOf(md, album, a + b);
    var r := ItemsOf(md, album, a) + ItemsOf(md, album, b);
    forall i | 0 <= i < |l|
      ensures l[i] == r[i]
    {
      if i < |a| {
        assert (a + b)[i] == a[i];
      } else {
        assert (a + b)[i] == b[i - |a|];
      }
    }
  }

  lemma ItemsOfOne(md: Metadata, album: Album, j: Job)
    ensures ItemsOf(md, album, [j]) == [ItemFor(md, album, j.trackNumber, j.track, j.ext)]
  {
  }

  /** items, notices and fs are what the step r stands for. */
  predicate Yields(md: Metadata, album: Album, items: seq<WorkItem>, notices: seq<Notice>, fs: Entries, r: Step) {
    items == ItemsOf(md, album, r.jobs) && notices == r.notices && fs == r.fs
  }

  /** Running one step after another yields the items and notices of both. */
  lemma YieldsThen(md: Metadata, album: Album, items: seq<WorkItem>, notices: seq<Notice>, fs: Entries, s: Step,
                   moreItems: seq<WorkItem>, moreNotices: seq<Notice>, fs': Entries, t: Step)
    requires Yields(md, album, items, notices, fs, s) && Yields(md, album, moreItems, moreNotices, fs', t)
    ensures Yields(md, album, items + moreItems, notices + moreNotices, fs', Then(s, t))
  {
    ItemsOfAppend(md, album, s.jobs, t.jobs);
  }

  /** A work item whose description names its input and target, and whose
      arguments start with the fixed preamble and the input, end with the
      target, and read back as an encoding request. */
  predicate Sound(item: WorkItem) {
    && |item.args| >= 6
    && item.args[..4] == Preamble
    && item.task == item.args[4] + " to " + item.args[|item.args| - 1]
    && Parse(item.args).Some?
  }

  lemma ItemForSound(md: Metadata, album: Album, trackNumber: nat, track: Track, ext: string)
    ensures Sound(ItemFor(md, album, trackNumber, track, ext))
  {
    var input := InputPath(md, track);
    var target := TargetPath(md, album, trackNumber, track, ext);
    EncoderArgsMeaning(input, target, ext, trackNumber, album, track);
    var args := EncoderArgs(input, target, ext, trackNumber, album, track);
    assert args[..4] == args[..5][..4];
  }

  /** Every work item, whatever its job, is described as "<input> to
      <target>", and its arguments start with the fixed preamble and the
      input, end with the target and read back as an encoding request. */
  lemma ItemsSound(md: Metadata, album: Album, jobs: seq<Job>)
    ensures forall i :: 0 <= i < |jobs| ==> Sound(ItemsOf(md, album, jobs)[i])
  {
    forall i | 0 <= i < |jobs|
      ensures Sound(ItemsOf(md, album, jobs)[i])
    {
      ItemForSound(md, album, jobs[i].trackNumber, jobs[i].track, jobs[i].ext);
    }
  }

  /** One pass of the inner loop: one extension of one track whose rendered
      file is a regular file modified at inputMtime. */
  function CompilePair(fs: Entries, denied: set<string>, md: Metadata, album: Album, trackNumber: nat,
                       track: Track, inputMtime: int, metadataMtime: int, ext: string): (r: Step)
    ensures |r.jobs| + |r.notices| == 1
    ensures Grows(fs, r.fs) && r.fs.Keys <= fs.Keys + {TargetFolder(md, album, ext)}
    // the only job it can produce is its own, and only once the folder exists
    ensures r.jobs != [] ==>
              && r.jobs == [Job(trackNumber, track, ext)]
              && TargetFolder(md, album, ext) in r.fs && r.fs[TargetFolder(md, album, ext)] == Directory
  {
    var folder := TargetFolder(md, album, ext);
    var made := MkdirAllOn(fs, denied, folder);
    if !made.ok then Step([], [MkdirFailed(folder)], made.fs)
    else
      var target := TargetPath(md, album, trackNumber, track, ext);
      match Decide(Lookup(made.fs, target), inputMtime, metadataMtime)
      case SkipDirectory => Step([], [TargetIsDirectory(target)], made.fs)
      case SkipUpToDate => Step([], [UpToDate(target)], made.fs)
      case Build => Step([Job(trackNumber, track, ext)], [], made.fs)
  }

  /** The inner loop over the first |exts| extensions. */
  function CompileExts(fs: Entries, denied: set<string>, md: Metadata, album: Album, trackNumber: nat,
                       track: Track, inputMtime: int, metadataMtime: int, exts: seq<string>): (r: Step)
    ensures |r.jobs| + |r.notices| == |exts|
    ensures Grows(fs, r.fs)
    decreases |exts|
  {
    if exts == [] then Step([], [], fs)
    else
      var s := CompileExts(fs, denied, md, album, trackNumber, track, inputMtime, metadataMtime, exts[..|exts| - 1]);
      var p := CompilePair(s.fs, denied, md, album, trackNumber, track, inputMtime, metadataMtime, exts[|exts| - 1]);
      GrowsTransitive(fs, s.fs, p.fs);
      Then(s, p)
  }

  lemma ExtsStep(fs: Entries, denied: set<string>, md: Metadata, album: Album, trackNumber: nat,
                 track: Track, inputMtime: int, metadataMtime: int, exts: seq<string>)
    requires exts != []
    ensures var s := CompileExts(fs, denied, md, album, trackNumber, track, inputMtime, metadataMtime, exts[..|exts| - 1]);
            CompileExts(fs, denied, md, album, trackNumber, track, inputMtime, metadataMtime, exts)
            == Then(s, CompilePair(s.fs, denied, md, album, trackNumber, track, inputMtime, metadataMtime,
                                   exts[|exts| - 1]))
  {
  }

  predicate IsFile(fs: Entries, path: string) {
    path in fs && fs[path].File?
  }

  /** One pass of the outer loop: the track at 0-based index k, numbered k + 1. */
  function CompileTrack(fs: Entries, denied: set<string>, md: Metadata, album: Album, k: nat, metadataMtime: int): (r: Step)
    requires k < |album.tracks|
    // a missing or directory input yields a single notice and no job, whatever the extensions
    ensures !IsFile(fs, InputPath(md, album.tracks[k])) ==> r.jobs == [] && |r.notices| == 1 && r.fs == fs
    ensures InputPath(md, album.tracks[k]) !in fs ==> r.notices == [InputMissing(InputPath(md, album.tracks[k]))]
    ensures Lookup(fs, InputPath(md, album.tracks[k])) == Some(Directory) ==>
              r.notices == [InputIsDirectory(InputPath(md, album.tracks[k]))]
    // otherwise one job or one notice per extension
    ensures IsFile(fs, InputPath(md, album.tracks[k])) ==> |r.jobs| + |r.notices| == |md.outputExtensions|
    ensures Grows(fs, r.fs)
  {
    var track := album.tracks[k];
    var input := InputPath(md, track);
    match Lookup(fs, input)
    case None => Step([], [InputMissing(input)], fs)
    case Some(Directory) => Step([], [InputIsDirectory(input)], fs)
    case Some(File(m)) => CompileExts(fs, denied, md, album, k + 1, track, m, metadataMtime, md.outputExtensions)
  }

  /** The outer loop over the first `count` tracks. */
  function CompileTracks(fs: Entries, denied: set<string>, md: Metadata, album: Album, count: nat, metadataMtime: int): (r: Step)
    requires count <= |album.tracks|
    ensures Grows(fs, r.fs)
  {
    if count == 0 then Step([], [], fs)
    else
      var s := CompileTracks(fs, denied, md, album, count - 1, metadataMtime);
      var t := CompileTrack(s.fs, denied, md, album, count - 1, metadataMtime);
      GrowsTransitive(fs, s.fs, t.fs);
      Then(s, t)
  }

  lemma TracksStep(fs: Entries, denied: set<string>, md: Metadata, album: Album, count: nat, metadataMtime: int)
    requires 0 < count <= |album.tracks|
    ensures var s := CompileTracks(fs, denied, md, album, count - 1, metadataMtime);
            CompileTracks(fs, denied, md, album, count, metadataMtime)
            == Then(s, CompileTrack(s.fs, denied, md, album, count - 1, metadataMtime))
  {
  }

  lemma TrackOfFile(fs: Entries, denied: set<string>, md: Metadata, album: Album, k: nat, metadataMtime: int)
    requires k < |album.tracks| && IsFile(fs, InputPath(md, album.tracks[k]))
    ensures CompileTrack(fs, denied, md, album, k, metadataMtime)
            == CompileExts(fs, denied, md, album, k + 1, album.tracks[k], fs[InputPath(md, album.tracks[k])].mtime,
                           metadataMtime, md.outputExtensions)
  {
  }

  function CompileAlbum(fs: Entries, denied: set<string>, md: Metadata, album: Album, metadataMtime: int): Step {
    CompileTracks(fs, denied, md, album, |album.tracks|, metadataMtime)
  }

  /** The ffmpeg arguments for one (track, extension) pair, appended in the
      order of the source. */
  method BuildArgs(input: string, target: string, ext: string, trackNumber: nat, album: Album, track: Track)
    returns (args: seq<string>)
    ensures args == EncoderArgs(input, target, ext, trackNumber, album, track)
  {
    ghost var e := EncodeFor(input, target, ext, trackNumber, album, track);
    args := ["-loglevel", "error", "-y", "-i", input];
    var coverArt := Override(album.cover, track.cover);
    if |coverArt| > 0 {
      if ext != "wav" {
        args := args + ["-i", coverArt, "-disposition:v", "attached_pic", "-metadata:s:v", "title=Album Cover",
                        "-metadata:s:v", "comment=Cover (Front)"];
      }
      if ext == "mp3" {
        args := args + ["-map", "0:a", "-map", "1:v", "-id3v2_version", "3"];
      }
    }
    if ext == "wav" {
      args := args + ["-acodec", "copy"];
    }
    ghost var head := args;
    assert head == Preamble + [input] + CoverArgs(e.cover) + (if e.mapStreams then MapFlags else [])
                   + (if e.streamCopy then CopyFlags else []);
    var tagArgs := [
      "-metadata", "track=" + Decimal(trackNumber),
      "-metadata", "title=" + track.title,
      "-metadata", "album=" + album.title,
      "-metadata", "genre=" + Override(album.genre, track.genre),
      "-metadata", "date=" + Override(album.date, track.date),
      "-metadata", "artist=" + Override(album.artist, track.artist),
      "-metadata", "album_artist=" + Override(album.artist, track.artist),
      "-metadata", "composer=" + Override(album.composer, track.composer),
      "-metadata", "comment=" + Override(album.copyright, track.copyright)];
    TrackTagArgs(trackNumber, album, track);
    assert tagArgs == TagArgs(e.tags);
    args := args + tagArgs;
    if ext == "flac" {
      args := args + ["-compression_level", "12"];
    } else if ext == "mp3" {
      args := args + ["-compression_level", "0", "-abr", "1", "-b:a", "320k"];
    } else if ext == "ogg" {
      args := args + ["-q", "10"];
    }
    assert args == head + TagArgs(e.tags) + e.compression;
    args := args + [target];
    RenderInOrder(e);
  }

  /** The body of processAlbum's inner loop, for one extension of a track
      whose rendered file was found at inputRenderedPath: at most one work
      item, or one notice where the source prints a message and continues. */
  method ProcessPair(disk: Disk, md: Metadata, album: Album, trackNumber: nat, track: Track,
                     inputRenderedPath: string, inputModTime: int, metadataModTime: int, extension: string)
    returns (items: seq<WorkItem>, notices: seq<Notice>)
    requires inputRenderedPath == InputPath(md, track)
    modifies disk
    ensures Yields(md, album, items, notices, disk.entries,
                   CompilePair(old(disk.entries), disk.denied, md, album, trackNumber, track, inputModTime,
                               metadataModTime, extension))
  {
    var targetFolder := PathJoin(PathJoin(PathJoin(md.outputPath, extension), album.artist), album.title);
    var ok := disk.MkdirAll(targetFolder);
    if !ok {
      return [], [MkdirFailed(targetFolder)];
    }

    var targetPath := PathJoin(targetFolder,
      album.artist + " - " + album.title + " - " + Pad2(trackNumber) + " " + track.title
      + " [" + track.renderedFile + "]." + extension);
    assert targetPath == TargetPath(md, album, trackNumber, track, extension);

    var targetStat := disk.Stat(targetPath);
    if targetStat.Some? {
      if targetStat.value.Directory? {
        return [], [TargetIsDirectory(targetPath)];
      }
      var targetModTime := targetStat.value.mtime;
      if targetModTime > inputModTime && targetModTime > metadataModTime {
        return [], [UpToDate(targetPath)];
      }
    }

    var args := BuildArgs(inputRenderedPath, targetPath, extension, trackNumber, album, track);
    items, notices := [WorkItem(inputRenderedPath + " to " + targetPath, args)], [];
    ItemsOfOne(md, album, Job(trackNumber, track, extension));
  }

  /** processAlbum's inner loop: every output extension of one track whose
      rendered file was found at inputRenderedPath, in order. */
  method ProcessExtensions(disk: Disk, md: Metadata, album: Album, trackNumber: nat, track: Track,
                           inputRenderedPath: string, inputModTime: int, metadataModTime: int)
    returns (workItems: seq<WorkItem>, notices: seq<Notice>)
    requires inputRenderedPath == InputPath(md, track)
    modifies disk
    ensures Yields(md, album, workItems, notices, disk.entries,
                   CompileExts(old(disk.entries), disk.denied, md, album, trackNumber, track, inputModTime,
                               metadataModTime, md.outputExtensions))
  {
    workItems, notices := [], [];
    for e := 0 to |md.outputExtensions|
      invariant Yields(md, album, workItems, notices, disk.entries,
                       CompileExts(old(disk.entries), disk.denied, md, album, trackNumber, track, inputModTime,
                                   metadataModTime, md.outputExtensions[..e]))
    {
      ghost var before := disk.entries;
      ghost var done := CompileExts(old(disk.entries), disk.denied, md, album, trackNumber, track, inputModTime,
                                    metadataModTime, md.outputExtensions[..e]);
      var pairItems, pairNotices := ProcessPair(disk, md, album, trackNumber, track, inputRenderedPath,
                                                inputModTime, metadataModTime, md.outputExtensions[e]);
      ghost var pair := CompilePair(done.fs, disk.denied, md, album, trackNumber, track,
                                    inputModTime, metadataModTime, md.outputExtensions[e]);
      assert md.outputExtensions[..e + 1][..e] == md.outputExtensions[..e];
      ExtsStep(old(disk.entries), disk.denied, md, album, trackNumber, track, inputModTime, metadataModTime,
               md.outputExtensions[..e + 1]);
      YieldsThen(md, album, workItems, notices, before, done, pairItems, pairNotices, disk.entries, pair);
      workItems := workItems + pairItems;
      notices := notices + pairNotices;
    }
    assert md.outputExtensions[..|md.outputExtensions|] == md.outputExtensions;
  }

  /** The body of processAlbum's outer loop, for the track at 0-based index
      trackIndex: a missing or directory input is reported once, otherwise
      every output extension is processed in order. */
  method ProcessTrack(disk: Disk, md: Metadata, album: Album, trackIndex: nat, metadataModTime: int)
    returns (workItems: seq<WorkItem>, notices: seq<Notice>)
    requires trackIndex < |album.tracks|
    modifies disk
    ensures Yields(md, album, workItems, notices, disk.entries,
                   CompileTrack(old(disk.entries), disk.denied, md, album, trackIndex, metadataModTime))
  {
    var track := album.tracks[trackIndex];
    var trackNumber := trackIndex + 1;

    var inputRenderedPath := PathJoin(md.inputPath, track.renderedFile + ".wav");
    var inputRenderedStat := disk.Stat(inputRenderedPath);
    if inputRenderedStat.None? {
      return [], [InputMissing(inputRenderedPath)];
    } else if inputRenderedStat.value.Directory? {
      return [], [InputIsDirectory(inputRenderedPath)];
    }
    var inputModTime := inputRenderedStat.value.mtime;
    workItems, notices := ProcessExtensions(disk, md, album, trackNumber, track, inputRenderedPath,
                                            inputModTime, metadataModTime);
  }

  /** processAlbum. The notices stand for the messages the source prints. */
  method ProcessAlbum(disk: Disk, md: Metadata, album: Album, metadataModTime: int)
    returns (workItems: seq<WorkItem>, notices: seq<Notice>)
    modifies disk
    ensures Yields(md, album, workItems, notices, disk.entries,
                   CompileAlbum(old(disk.entries), disk.denied, md, album, metadataModTime))
  {
    workItems, notices := [], [];
    for trackIndex := 0 to |album.tracks|
      invariant Yields(md, album, workItems, notices, disk.entries,
                       CompileTracks(old(disk.entries), disk.denied, md, album, trackIndex, metadataModTime))
    {
      ghost var before := disk.entries;
      ghost var done := CompileTracks(old(disk.entries), disk.denied, md, album, trackIndex, metadataModTime);
      var trackItems, trackNotices := ProcessTrack(disk, md, album, trackIndex, metadataModTime);
      ghost var pass := CompileTrack(done.fs, disk.denied, md, album, trackIndex, metadataModTime);
      TracksStep(old(disk.entries), disk.denied, md, album, trackIndex + 1, metadataModTime);
      YieldsThen(md, album, workItems, notices, before, done, trackItems, trackNotices, disk.entries, pass);
      workItems := workItems + trackItems;
      notices := notices + trackNotices;
    }
  }

  // What the compiler promises, over all file systems.

  /** The target of the track at 0-based index k. */
  function PairTarget(md: Metadata, album: Album, k: nat, ext: string): string
    requires k < |album.tracks|
  {
    TargetPath(md, album, k + 1, album.tracks[k], ext)
  }

  /** A pair yields a job exactly when its folder can be made and its target
      is absent, or is a file not newer than both the input and the
      metadata; otherwise its one notice says which check stopped it. */
  lemma PairJobIff(fs: Entries, denied: set<string>, md: Metadata, album: Album, trackNumber: nat,
                   track: Track, inputMtime: int, metadataMtime: int, ext: string)
    ensures var r := CompilePair(fs, denied, md, album, trackNumber, track, inputMtime, metadataMtime, ext);
            var folder := TargetFolder(md, album, ext);
            var target := TargetPath(md, album, trackNumber, track, ext);
            && (r.jobs != [] <==>
                  && MkdirSucceeds(fs, denied, folder)
                  && (target !in fs
                      || (fs[target].File? && (fs[target].mtime <= inputMtime || fs[target].mtime <= metadataMtime))))
            && (!MkdirSucceeds(fs, denied, folder) ==> r.notices == [MkdirFailed(folder)])
            && (MkdirSucceeds(fs, denied, folder) && target in fs && fs[target] == Directory ==>
                  r.notices == [TargetIsDirectory(target)])
            && (MkdirSucceeds(fs, denied, folder) && target in fs && fs[target].File?
                && fs[target].mtime > inputMtime && fs[target].mtime > metadataMtime ==>
                  r.notices == [UpToDate(target)])
  {
    var folder := TargetFolder(md, album, ext);
    var target := TargetPath(md, album, trackNumber, track, ext);
    var made := MkdirAllOn(fs, denied, folder);
    assert |target| > |folder|;
    assert Lookup(made.fs, target) == Lookup(fs, target);
  }

  /** No target of the album exists in fs. */
  ghost predicate TargetsAbsent(fs: Entries, md: Metadata, album: Album) {
    forall k, ext :: 0 <= k < |album.tracks| && ext in md.outputExtensions ==> PairTarget(md, album, k, ext) !in fs
  }

  /** A first run: every input is a regular file, every output folder can be
      made, no target exists yet, and no target is also an output folder. */
  ghost predicate FreshRun(fs: Entries, denied: set<string>, md: Metadata, album: Album) {
    && (forall k :: 0 <= k < |album.tracks| ==> IsFile(fs, InputPath(md, album.tracks[k])))
    && (forall ext :: ext in md.outputExtensions ==> MkdirSucceeds(fs, denied, TargetFolder(md, album, ext)))
    && TargetsAbsent(fs, md, album)
    && (forall k, ext, ext' :: 0 <= k < |album.tracks| && ext in md.outputExtensions && ext' in md.outputExtensions ==>
          PairTarget(md, album, k, ext) != TargetFolder(md, album, ext'))
  }

  /** The jobs of one track for the extensions exts, in extension order. */
  function RowJobs(trackNumber: nat, track: Track, exts: seq<string>): (r: seq<Job>)
    ensures |r| == |exts|
    ensures forall e :: 0 <= e < |exts| ==> r[e] == Job(trackNumber, track, exts[e])
    decreases |exts|
  {
    if exts == [] then []
    else RowJobs(trackNumber, track, exts[..|exts| - 1]) + [Job(trackNumber, track, exts[|exts| - 1])]
  }

  /** One job per (track, extension) pair of the first count tracks: track
      order, then extension order. */
  function AllJobs(md: Metadata, album: Album, count: nat): seq<Job>
    requires count <= |album.tracks|
  {
    if count == 0 then []
    else AllJobs(md, album, count - 1) + RowJobs(count, album.tracks[count - 1], md.outputExtensions)
  }

  lemma {:induction false} AllJobsLength(md: Metadata, album: Album, count: nat)
    requires count <= |album.tracks|
    ensures |AllJobs(md, album, count)| == count * |md.outputExtensions|
    decreases count
  {
    if count > 0 {
      AllJobsLength(md, album, count - 1);
      var n := |md.outputExtensions|;
      assert count * n == (count - 1) * n + n;
    }
  }

  /** Processing more tracks only appends: the jobs of the first j tracks
      stay where they are. */
  lemma {:induction false} AllJobsKeep(md: Metadata, album: Album, j: nat, count: nat, i: nat)
    requires j <= count <= |album.tracks| && i < |AllJobs(md, album, j)|
    ensures i < |AllJobs(md, album, count)|
    ensures AllJobs(md, album, count)[i] == AllJobs(md, album, j)[i]
    decreases count
  {
    if j < count {
      AllJobsKeep(md, album, j, count - 1, i);
      var prev := AllJobs(md, album, count - 1);
      var row := RowJobs(count, album.tracks[count - 1], md.outputExtensions);
      assert AllJobs(md, album, count) == prev + row;
      assert (prev + row)[i] == prev[i];
    }
  }

  /** The job of track k (0-based) and extension e sits right after the
      jobs of the tracks before k, at offset e: row-major order (with
      AllJobsLength, at k * n + e for n extensions). */
  lemma {:induction false} AllJobsAt(md: Metadata, album: Album, count: nat, k: nat, e: nat)
    requires count <= |album.tracks| && k < count && e < |md.outputExtensions|
    ensures |AllJobs(md, album, k)| + e < |AllJobs(md, album, count)|
    ensures AllJobs(md, album, count)[|AllJobs(md, album, k)| + e]
            == Job(k + 1, album.tracks[k], md.outputExtensions[e])
  {
    var prev := AllJobs(md, album, k);
    var row := RowJobs(k + 1, album.tracks[k], md.outputExtensions);
    var i := |prev| + e;
    assert AllJobs(md, album, k + 1) == prev + row;
    assert (prev + row)[i] == row[e];
    AllJobsKeep(md, album, k + 1, count, i);
  }

  lemma FreshPair(fs0: Entries, fs: Entries, denied: set<string>, md: Metadata, album: Album, k: nat,
                  inputMtime: int, metadataMtime: int, ext: string)
    requires FreshRun(fs0, denied, md, album) && Grows(fs0, fs) && TargetsAbsent(fs, md, album)
    requires k < |album.tracks| && ext in md.outputExtensions
    ensures var r := CompilePair(fs, denied, md, album, k + 1, album.tracks[k], inputMtime, metadataMtime, ext);
            && r.jobs == [Job(k + 1, album.tracks[k], ext)] && r.notices == []
            && Grows(fs0, r.fs) && TargetsAbsent(r.fs, md, album)
  {
    var folder := TargetFolder(md, album, ext);
    MkdirSucceedsGrows(fs0, fs, denied, folder);
    assert PairTarget(md, album, k, ext) !in fs;
    var r := CompilePair(fs, denied, md, album, k + 1, album.tracks[k], inputMtime, metadataMtime, ext);
    PairJobIff(fs, denied, md, album, k + 1, album.tracks[k], inputMtime, metadataMtime, ext);
    GrowsTransitive(fs0, fs, r.fs);
    forall k', ext' | 0 <= k' < |album.tracks| && ext' in md.outputExtensions
      ensures PairTarget(md, album, k', ext') !in r.fs
    {
      assert PairTarget(md, album, k', ext') != folder;
    }
  }

  lemma {:induction false} FreshExts(fs0: Entries, fs: Entries, denied: set<string>, md: Metadata, album: Album,
                                     k: nat, inputMtime: int, metadataMtime: int, exts: seq<string>)
    requires FreshRun(fs0, denied, md, album) && Grows(fs0, fs) && TargetsAbsent(fs, md, album)
    requires k < |album.tracks|
    requires forall e :: 0 <= e < |exts| ==> exts[e] in md.outputExtensions
    ensures var r := CompileExts(fs, denied, md, album, k + 1, album.tracks[k], inputMtime, metadataMtime, exts);
            && r.jobs == RowJobs(k + 1, album.tracks[k], exts) && r.notices == []
            && Grows(fs0, r.fs) && TargetsAbsent(r.fs, md, album)
    decreases |exts|
  {
    if exts != [] {
      var init := exts[..|exts| - 1];
      FreshExts(fs0, fs, denied, md, album, k, inputMtime, metadataMtime, init);
      var s := CompileExts(fs, denied, md, album, k + 1, album.tracks[k], inputMtime, metadataMtime, init);
      FreshPair(fs0, s.fs, denied, md, album, k, inputMtime, metadataMtime, exts[|exts| - 1]);
    }
  }

  lemma {:induction false} FreshTracks(fs0: Entries, denied: set<string>, md: Metadata, album: Album,
                                       count: nat, metadataMtime: int)
    requires FreshRun(fs0, denied, md, album) && count <= |album.tracks|
    ensures var r := CompileTracks(fs0, denied, md, album, count, metadataMtime);
            r.jobs == AllJobs(md, album, count) && r.notices == [] && TargetsAbsent(r.fs, md, album)
    decreases count
  {
    if count > 0 {
      var k := count - 1;
      FreshTracks(fs0, denied, md, album, k, metadataMtime);
      var s := CompileTracks(fs0, denied, md, album, k, metadataMtime);
      var input := InputPath(md, album.tracks[k]);
      assert IsFile(fs0, input);
      var m := fs0[input].mtime;
      assert Lookup(s.fs, input) == Some(File(m));
      TracksStep(fs0, denied, md, album, count, metadataMtime);
      TrackOfFile(s.fs, denied, md, album, k, metadataMtime);
      FreshExts(fs0, s.fs, denied, md, album, k, m, metadataMtime, md.outputExtensions);
      assert AllJobs(md, album, count) == AllJobs(md, album, k) + RowJobs(count, album.tracks[k], md.outputExtensions);
    }
  }

  /** On a first run processAlbum reports nothing and returns one work item
      for every (track, extension) pair, tracks in order and, within a
      track, extensions in order. */
  lemma FreshAlbum(fs: Entries, denied: set<string>, md: Metadata, album: Album, metadataMtime: int)
    requires FreshRun(fs, denied, md, album)
    ensures var r := CompileAlbum(fs, denied, md, album, metadataMtime);
            && r.notices == []
            && r.jobs == AllJobs(md, album, |album.tracks|)
            && ItemsOf(md, album, r.jobs) == ItemsOf(md, album, AllJobs(md, album, |album.tracks|))
  {
    FreshTracks(fs, denied, md, album, |album.tracks|, metadataMtime);
  }

  /** Two tracks and the extensions mp3 and flac, nothing built yet: four
      work items, track 1 before track 2 and mp3 before flac in each. */
  lemma FreshTwoByTwo(fs: Entries, denied: set<string>, md: Metadata, album: Album, metadataMtime: int)
    requires |album.tracks| == 2 && md.outputExtensions == ["mp3", "flac"]
    requires FreshRun(fs, denied, md, album)
    ensures CompileAlbum(fs, denied, md, album, metadataMtime).jobs
            == [Job(1, album.tracks[0], "mp3"), Job(1, album.tracks[0], "flac"),
                Job(2, album.tracks[1], "mp3"), Job(2, album.tracks[1], "flac")]
  {
    FreshAlbum(fs, denied, md, album, metadataMtime);
    assert AllJobs(md, album, 1) == AllJobs(md, album, 0) + RowJobs(1, album.tracks[0], md.outputExtensions);
    assert AllJobs(md, album, 2) == AllJobs(md, album, 1) + RowJobs(2, album.tracks[1], md.outputExtensions);
  }

  /** a is b with some elements deleted. */
  predicate SubseqOf<T(==)>(a: seq<T>, b: seq<T>)
    decreases |b|
  {
    if a == [] then true
    else if b == [] then false
    else (a[|a| - 1] == b[|b| - 1] && SubseqOf(a[..|a| - 1], b[..|b| - 1])) || SubseqOf(a, b[..|b| - 1])
  }

  lemma {:induction false} SubseqConcat<T>(a1: seq<T>, b1: seq<T>, a2: seq<T>, b2: seq<T>)
    requires SubseqOf(a1, b1) && SubseqOf(a2, b2)
    ensures SubseqOf(a1 + a2, b1 + b2)
    decreases |b2|
  {
    if b2 == [] {
      assert a2 == [];
      assert a1 + a2 == a1 && b1 + b2 == b1;
    } else {
      var b2' := b2[..|b2| - 1];
      assert (b1 + b2)[..|b1 + b2| - 1] == b1 + b2';
      if a2 != [] && a2[|a2| - 1] == b2[|b2| - 1] && SubseqOf(a2[..|a2| - 1], b2') {
        SubseqConcat(a1, b1, a2[..|a2| - 1], b2');
        assert (a1 + a2)[..|a1 + a2| - 1] == a1 + a2[..|a2| - 1];
      } else {
        SubseqConcat(a1, b1, a2, b2');
      }
    }
  }

  lemma {:induction false} SubseqMembers<T>(a: seq<T>, b: seq<T>)
    requires SubseqOf(a, b)
    ensures forall i :: 0 <= i < |a| ==> a[i] in b
    decreases |b|
  {
    if a != [] {
      var b' := b[..|b| - 1];
      if a[|a| - 1] == b[|b| - 1] && SubseqOf(a[..|a| - 1], b') {
        SubseqMembers(a[..|a| - 1], b');
        assert forall i :: 0 <= i < |a| - 1 ==> a[i] == a[..|a| - 1][i];
      } else {
        SubseqMembers(a, b');
      }
      assert forall x :: x in b' ==> x in b;
    }
  }

  lemma {:induction false} ExtsOrdered(fs: Entries, denied: set<string>, md: Metadata, album: Album, trackNumber: nat,
                                       track: Track, inputMtime: int, metadataMtime: int, exts: seq<string>)
    ensures SubseqOf(CompileExts(fs, denied, md, album, trackNumber, track, inputMtime, metadataMtime, exts).jobs,
                     RowJobs(trackNumber, track, exts))
    decreases |exts|
  {
    if exts != [] {
      var init := exts[..|exts| - 1];
      var s := CompileExts(fs, denied, md, album, trackNumber, track, inputMtime, metadataMtime, init);
      var p := CompilePair(s.fs, denied, md, album, trackNumber, track, inputMtime, metadataMtime, exts[|exts| - 1]);
      ExtsOrdered(fs, denied, md, album, trackNumber, track, inputMtime, metadataMtime, init);
      var job := Job(trackNumber, track, exts[|exts| - 1]);
      assert SubseqOf(p.jobs, [job]) by {
        if p.jobs != [] {
          assert p.jobs[..0] == [] && [job][..0] == [];
        }
      }
      SubseqConcat(s.jobs, RowJobs(trackNumber, track, init), p.jobs, [job]);
    }
  }

  lemma {:induction false} TracksOrdered(fs: Entries, denied: set<string>, md: Metadata, album: Album,
                                         count: nat, metadataMtime: int)
    requires count <= |album.tracks|
    ensures SubseqOf(CompileTracks(fs, denied, md, album, count, metadataMtime).jobs, AllJobs(md, album, count))
    decreases count
  {
    if count > 0 {
      var k := count - 1;
      TracksOrdered(fs, denied, md, album, k, metadataMtime);
      var s := CompileTracks(fs, denied, md, album, k, metadataMtime);
      var t := CompileTrack(s.fs, denied, md, album, k, metadataMtime);
      var row := RowJobs(count, album.tracks[k], md.outputExtensions);
      var input := InputPath(md, album.tracks[k]);
      TracksStep(fs, denied, md, album, count, metadataMtime);
      assert SubseqOf(t.jobs, row) by {
        if IsFile(s.fs, input) {
          TrackOfFile(s.fs, denied, md, album, k, metadataMtime);
          ExtsOrdered(s.fs, denied, md, album, count, album.tracks[k], s.fs[input].mtime, metadataMtime,
                      md.outputExtensions);
        }
      }
      SubseqConcat(s.jobs, AllJobs(md, album, k), t.jobs, row);
      assert AllJobs(md, album, count) == AllJobs(md, album, k) + row;
    }
  }

  /** Whatever the file system holds, the jobs processAlbum keeps are among
      those of a first run, in the same order: tracks in order, extensions
      in order within a track, each entry of that list at most once (a
      repeated extension is processed, and listed, once per occurrence). */
  lemma AlbumOrdered(fs: Entries, denied: set<string>, md: Metadata, album: Album, metadataMtime: int)
    ensures var jobs := CompileAlbum(fs, denied, md, album, metadataMtime).jobs;
            && SubseqOf(jobs, AllJobs(md, album, |album.tracks|))
            && forall i :: 0 <= i < |jobs| ==> jobs[i] in AllJobs(md, album, |album.tracks|)
  {
    var jobs := CompileAlbum(fs, denied, md, album, metadataMtime).jobs;
    TracksOrdered(fs, denied, md, album, |album.tracks|, metadataMtime);
    SubseqMembers(jobs, AllJobs(md, album, |album.tracks|));
  }

  /** The target of pair (k, ext) is a file newer than the metadata and,
      where the input is a file, newer than the input. */
  ghost predicate PairCurrent(fs: Entries, md: Metadata, album: Album, k: nat, ext: string, metadataMtime: int)
    requires k < |album.tracks|
  {
    var target := PairTarget(md, album, k, ext);
    var input := InputPath(md, album.tracks[k]);
    && target in fs && fs[target].File? && fs[target].mtime > metadataMtime
    && (IsFile(fs, input) ==> fs[target].mtime > fs[input].mtime)
  }

  ghost predicate AlbumCurrent(fs: Entries, md: Metadata, album: Album, metadataMtime: int) {
    forall k, ext :: 0 <= k < |album.tracks| && ext in md.outputExtensions ==>
      PairCurrent(fs, md, album, k, ext, metadataMtime)
  }

  lemma CurrentPair(fs0: Entries, fs: Entries, denied: set<string>, md: Metadata, album: Album, k: nat,
                    metadataMtime: int, ext: string)
    requires AlbumCurrent(fs0, md, album, metadataMtime) && Grows(fs0, fs)
    requires k < |album.tracks| && ext in md.outputExtensions
    requires IsFile(fs, InputPath(md, album.tracks[k]))
    ensures CompilePair(fs, denied, md, album, k + 1, album.tracks[k], fs[InputPath(md, album.tracks[k])].mtime,
                        metadataMtime, ext).jobs == []
  {
    var input := InputPath(md, album.tracks[k]);
    var target := PairTarget(md, album, k, ext);
    assert PairCurrent(fs0, md, album, k, ext, metadataMtime);
    assert input in fs0 && fs0[input] == fs[input];
    PairJobIff(fs, denied, md, album, k + 1, album.tracks[k], fs[input].mtime, metadataMtime, ext);
  }

  lemma {:induction false} CurrentExts(fs0: Entries, fs: Entries, denied: set<string>, md: Metadata, album: Album,
                                       k: nat, metadataMtime: int, exts: seq<string>)
    requires AlbumCurrent(fs0, md, album, metadataMtime) && Grows(fs0, fs)
    requires k < |album.tracks| && IsFile(fs, InputPath(md, album.tracks[k]))
    requires forall e :: 0 <= e < |exts| ==> exts[e] in md.outputExtensions
    ensures CompileExts(fs, denied, md, album, k + 1, album.tracks[k], fs[InputPath(md, album.tracks[k])].mtime,
                        metadataMtime, exts).jobs == []
    decreases |exts|
  {
    if exts != [] {
      var input := InputPath(md, album.tracks[k]);
      var init := exts[..|exts| - 1];
      CurrentExts(fs0, fs, denied, md, album, k, metadataMtime, init);
      var s := CompileExts(fs, denied, md, album, k + 1, album.tracks[k], fs[input].mtime, metadataMtime, init);
      GrowsTransitive(fs0, fs, s.fs);
      assert s.fs[input] == fs[input];
      CurrentPair(fs0, s.fs, denied, md, album, k, metadataMtime, exts[|exts| - 1]);
    }
  }

  lemma {:induction false} CurrentTracks(fs0: Entries, denied: set<string>, md: Metadata, album: Album,
                                         count: nat, metadataMtime: int)
    requires AlbumCurrent(fs0, md, album, metadataMtime) && count <= |album.tracks|
    ensures CompileTracks(fs0, denied, md, album, count, metadataMtime).jobs == []
    decreases count
  {
    if count > 0 {
      var k := count - 1;
      CurrentTracks(fs0, denied, md, album, k, metadataMtime);
      var s := CompileTracks(fs0, denied, md, album, k, metadataMtime);
      if IsFile(s.fs, InputPath(md, album.tracks[k])) {
        CurrentExts(fs0, s.fs, denied, md, album, k, metadataMtime, md.outputExtensions);
      }
    }
  }

  /** When every target is already a file newer than the metadata and than
      its input, processAlbum returns no work item at all: running it again
      after its work is done changes nothing. */
  lemma CurrentAlbumYieldsNothing(fs: Entries, denied: set<string>, md: Metadata, album: Album, metadataMtime: int)
    requires AlbumCurrent(fs, md, album, metadataMtime)
    ensures CompileAlbum(fs, denied, md, album, metadataMtime).jobs == []
    ensures ItemsOf(md, album, CompileAlbum(fs, denied, md, album, metadataMtime).jobs) == []
  {
    CurrentTracks(fs, denied, md, album, |album.tracks|, metadataMtime);
  }
}
