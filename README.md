# go-meta work-item compiler, in Dafny

go-meta turns a metadata tree (albums of tracks, each track rendered to a
`.wav` file) into ffmpeg invocations that encode every track to every
configured output format, tagged and with cover art. This project models the
compiler at the heart of `main.go`: `processAlbum`, which walks an album's
tracks and the output extensions, creates the output folders, skips targets
that are already up to date and builds one `WorkItem` (a description and
an ffmpeg argument list) per remaining (track, extension) pair. It also
models the helpers `override`, `quote`, `formatCommand` and
`formatOutAndError`.

Modules, one file each:

- `Catalog` (`catalog.dfy`) holds the `Track`, `Album`, `Metadata` and `WorkItem` records and `Override`.
- `Text` (`text.dfy`) holds the parts of Go's `fmt`, `strings` and `path/filepath` that the code relies on:
  - `%d` and `%02d`, with `ParseDecimal` as their inverse;
  - `strings.Join`, with a split at a separator character (`SplitOn`) as its inverse; the code itself never splits;
  - trimming CR and LF, and `ReplaceAll` of CR LF, each specified by what it leaves behind;
  - `filepath.Join`, as plain concatenation.
- `Files` (`files.dfy`) models the file system as a map from path to a regular file (with its modification time) or a directory.
  - A `Disk` object holds that map. Its `Stat` and `MkdirAll` methods stand for `os.Stat` and `os.MkdirAll`.
  - A fixed set of paths models the folders that MkdirAll cannot create.
- `Ffmpeg` (`ffmpeg.dfy`) models the argument list.
  - `Encode` says what one command asks of ffmpeg.
  - `Render` lays an `Encode` out in the source's order, and `Parse` reads an argument list back.
  - `EncodeFor` gives the request for one (track, extension) pair.
- `Compiler` (`compiler.dfy`) holds `processAlbum`.
  - The source's nested loops are the methods `ProcessAlbum` (over tracks), `ProcessTrack` (one track's body), `ProcessExtensions` (over extensions) and `ProcessPair` (one extension's body).
  - Each method is proved against a spec function: `CompileTracks`, `CompileTrack`, `CompileExts` or `CompilePair`.
  - The spec functions return the *jobs* (the (track number, track, extension) pairs that get an item), the notices printed instead, and the file system afterwards.
  - `ItemsOf` turns jobs into work items.
- `Formatting` (`formatting.dfy`) holds `quote`, `formatCommand` and `formatOutAndError`.

Two consequences of the code are worth stating outright:

- The metadata file's modification time is there so that editing the metadata forces a re-encode even when a target is newer than its rendered input (main.go:71-72). A second run therefore yields no work item only when every target is a file strictly newer than both its input and the metadata, and a missing input still yields its own notice on every run (`CurrentAlbumYieldsNothing`).
- Besides a missing or directory input, a directory in the way of the target and an up-to-date target, a pair whose output folder cannot be created is dropped too, with its own notice (`PairJobIff`).

## Model

| member | source | states |
|---|---|---|
| Catalog.Override | main.go:270-276 | the track's value when it has one, otherwise the album default, whatever the default is |
| Text.Decimal | main.go:234 | `%d` of a non-negative number: a non-empty string of digits, one digit exactly below 10, no leading zero except for 0 |
| Text.DecimalRoundTrip | main.go:234 | the digits read back as the number they were made from |
| Text.Pad2 | main.go:192-193 | `%02d`: exactly two digits with a leading zero below 10, the plain decimal from 10 on, and the digits denote the track number |
| Text.SplitJoin | main.go:313 | splitting a `strings.Join` at a separator no part contains gives the parts back |
| Text.TrimCrLf | main.go:283 | `strings.Trim(s, "\r\n")` is the middle part of s: only CR and LF come before and after it in s, everything in between is kept, and it has no CR or LF at either end |
| Text.ReplaceCrLfClean | main.go:283 | `ReplaceAll(s, "\r\n", ", ")` keeps the length, leaves no CR LF pair, and keeps a first and last character that are not part of one |
| Text.ReplaceCrLfNoPair | main.go:283 | a string without a CR LF pair is left unchanged |
| Files.MkdirAllOn | main.go:183-187 | MkdirAll succeeds exactly on an existing directory or an absent path it may create; it changes nothing when it fails, leaves the folder a directory when it succeeds, and adds nothing but that folder |
| Files.Disk.Stat | main.go:167-176 | Stat fails exactly on an absent path and otherwise reports the entry |
| Files.Disk.MkdirAll | main.go:183-187 | the disk after the call and the result are those of MkdirAllOn on the disk before it |
| Ffmpeg.Render | main.go:213-255 | every argument list starts with `-loglevel error -y -i <input>` and ends with the target path |
| Ffmpeg.RenderParse | main.go:213-255 | reading a rendered list back gives the request it was rendered from: the list carries every part of the request and nothing else |
| Ffmpeg.TrackTagArgs | main.go:233-243 | the nine `-metadata` pairs in the source's order: track, title, album, genre, date, artist, album_artist (the effective artist), composer, comment (the effective copyright) |
| Ffmpeg.EncoderArgsMeaning | main.go:212-255 | the cover image is an input exactly when the effective cover is non-empty and the extension is not wav; mp3 mapping and ID3v2.3 exactly for mp3 with a cover; stream copy exactly for wav; the nine tags; `-compression_level 12` for flac, `-compression_level 0 -abr 1 -b:a 320k` for mp3, `-q 10` for ogg, nothing otherwise |
| Compiler.TargetPathShape | main.go:182-194 | the target is `<OutputPath>/<ext>/<album artist>/<album title>/` (album values, never a track override) followed by `<artist> - <album> - <NN> <title> [<rendered file>].<ext>`, where NN denotes the track number and is exactly two digits, the first a zero, below 10 |
| Compiler.Decide | main.go:197-209 | a missing target is built; a directory target never is; an existing file is skipped exactly when it is strictly newer than both the input and the metadata |
| Compiler.CompilePair | main.go:181-262 | one extension of a track yields one item or one notice, only adds its folder to the file system, and yields an item only for its own pair once its folder is a directory |
| Compiler.CompileExts | main.go:179-263 | one item or notice per extension, and the file system only grows |
| Compiler.CompileTrack | main.go:162-177 | a missing input yields the single notice that it is missing and a directory input the single notice that it is a directory, with no item whatever the extensions and no change; otherwise one item or notice per extension |
| Compiler.CompileTracks | main.go:162-264 | the file system only grows: nothing existing changes, and everything new is a directory |
| Compiler.BuildArgs | main.go:212-255 | the list the source appends step by step equals the rendered request for the pair |
| Compiler.ProcessPair | main.go:181-262 | the work items, notices and disk after one pass of the inner loop are those CompilePair gives |
| Compiler.ProcessExtensions | main.go:179-263 | the inner loop yields what CompileExts gives for all extensions |
| Compiler.ProcessTrack | main.go:163-264 | one pass of the outer loop yields what CompileTrack gives |
| Compiler.ProcessAlbum | main.go:157-267 | processAlbum returns the work items of CompileAlbum's jobs, reports its notices and leaves the disk as CompileAlbum does |
| Compiler.ItemForSound | main.go:212-260 | each item's task is `<input> to <target>`, and its arguments start with the preamble and input, end with the target and read back |
| Compiler.ItemsSound | main.go:257-262 | every work item returned has that shape |
| Compiler.PairJobIff | main.go:181-210 | a pair yields an item exactly when its folder can be made and its target is absent or a file not strictly newer than both; otherwise the notice names the folder that failed, the directory in the way or the up-to-date target |
| Compiler.AllJobsLength | main.go:162-179 | a first run has one job per (track, extension) pair |
| Compiler.AllJobsKeep | main.go:162-179 | processing more tracks only appends: the jobs of earlier tracks keep their positions |
| Compiler.AllJobsAt | main.go:162-179 | the jobs come in row-major order: the job of track k and extension e follows the jobs of the tracks before k, at offset e |
| Compiler.FreshAlbum | main.go:157-267 | when every input is a file, every folder can be made and no target exists, there are no notices and one item per pair, tracks in order and extensions in order |
| Compiler.FreshTwoByTwo | main.go:157-267 | two tracks with mp3 and flac and nothing built yet give four items: track 1 mp3, track 1 flac, track 2 mp3, track 2 flac |
| Compiler.AlbumOrdered | main.go:162-263 | whatever the file system holds, the items are a subsequence of a first run's list: each position of that list at most once, in the same order |
| Compiler.CurrentAlbumYieldsNothing | main.go:196-209 | when every target is a file newer than the metadata and than its input, no work item is produced |
| Formatting.Quote | main.go:293-299 | a string with a space comes back enclosed in double quotes; any other string comes back unchanged; the result has a space exactly when the string does |
| Formatting.QuoteRoundTrip | main.go:293-299 | taking off quotes that enclose a space gives back every string, quoted or not |
| Formatting.FormatCommand | main.go:302-315 | the loop builds the quoted command, a space, and the quoted arguments joined by spaces |
| Formatting.CommandLineWords | main.go:302-315 | without spaces in the command or arguments, splitting the line at spaces gives the command and the arguments back; with no arguments the line ends in a space |
| Formatting.TidyClean | main.go:283-286 | a tidied stream has no CR LF pair and no CR or LF at either end |
| Formatting.TidyIdempotent | main.go:283-286 | tidying a tidied stream changes nothing |
| Formatting.TidyPlain | main.go:283-286 | a stream without CR or LF is shown unchanged |
| Formatting.FormatOutAndError | main.go:279-290 | empty streams are left out; stdout comes first, separated from stderr by ", " |
| Formatting.FormatOutAndErrorClean | main.go:279-290 | the combined message has no CR LF pair, even where the two streams meet |

## Left out

- `main` (main.go:59-153) is not modelled: flag parsing, reading and decoding the JSON metadata, and looking up the metadata file's modification time. That time is a parameter of `ProcessAlbum`.
- The worker pool (`coutil.WorkPool`), launching ffmpeg with `exec.Command`, and collecting its output and exit code are not modelled. They are concurrency and process I/O. So `WorkItem.Error`, which only the pool sets, is not modelled either.
- The text of the messages on stderr and stdout is not modelled. A `Notice` records which message was printed and for which path, but not the wording or the underlying OS error.
- `time.Time` is an integer, and `After` is `>`.
- `filepath.Join` is concatenation with `/`. It does not model Go's lexical clean-up (doubled separators, `.` and `..`, trailing slashes). Nor does it model that Go drops empty elements: `filepath.Join("", "x.wav")` is `x.wav`, where `PathJoin` gives `/x.wav`. `filepath.FromSlash` is the identity.
- Files.MkdirAllOn: records only the requested folder, not the parent folders `os.MkdirAll` also creates. Whether the call fails is decided by a fixed set of paths, standing for permissions. A call that fails after creating some parents is not modelled. The 0777 mode is not modelled.
- Strings are sequences of characters rather than Go's byte strings. No operation here depends on the difference: non-emptiness, equality, concatenation, and splitting or trimming ASCII characters.
- `Files.Disk.Stat` does not model errors other than "absent", such as permission errors. Go reports both through the same `err != nil` branch, so the model treats every Stat failure as an absent path.
