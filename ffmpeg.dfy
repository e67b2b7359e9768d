/** The ffmpeg command line that processAlbum builds for one (track, extension)
    pair. `Encode` is what the command asks ffmpeg to do; `Render` lays it out
    as the argument list in the fixed order of the source and `Parse` reads
    an argument list back, so that the round trip shows the list says exactly
    what was meant and nothing else. */
module Ffmpeg {
  import opened Catalog
  import opened Text

  /** One `-metadata key=value` assignment. */
  datatype Tag = Tag(key: string, value: string)

  datatype Encode = Encode(
    input: string,            // the rendered .wav file
    cover: Option<string>,    // a second input, attached as the front cover
    mapStreams: bool,         // explicit stream mapping and ID3v2.3 (mp3 with a cover)
    streamCopy: bool,         // copy the audio stream instead of re-encoding (wav)
    tags: seq<Tag>,
    compression: seq<string>,
    target: string)

  const Preamble: seq<string> := ["-loglevel", "error", "-y", "-i"]
  const CoverFlags: seq<string> :=
    ["-disposition:v", "attached_pic", "-metadata:s:v", "title=Album Cover", "-metadata:s:v", "comment=Cover (Front)"]
  const MapFlags: seq<string> := ["-map", "0:a", "-map", "1:v", "-id3v2_version", "3"]
  const CopyFlags: seq<string> := ["-acodec", "copy"]

  function CoverArgs(cover: Option<string>): seq<string> {
    if cover.Some? then ["-i", cover.value] + CoverFlags else []
  }

  function TagPair(t: Tag): seq<string> {
    ["-metadata", t.key + "=" + t.value]
  }

  function TagArgs(tags: seq<Tag>): (r: seq<string>)
    ensures |r| == 2 * |tags|
  {
    if tags == [] then [] else TagPair(tags[0]) + TagArgs(tags[1..])
  }

  function Render(e: Encode): (args: seq<string>)
    ensures |args| >= 6 && args[..5] == Preamble + [e.input] && args[|args| - 1] == e.target
  {
    Preamble + [e.input] + (CoverArgs(e.cover)
    + ((if e.mapStreams then MapFlags else [])
    + ((if e.streamCopy then CopyFlags else [])
    + (TagArgs(e.tags) + (e.compression + [e.target])))))
  }

  /** Splits `key=value` at its first `=`. */
  function SplitTag(s: string): Option<Tag>
  {
    if s == [] then None
    else if s[0] == '=' then Some(Tag("", s[1..]))
    else
      match SplitTag(s[1..])
      case None => None
      case Some(t) => Some(Tag([s[0]] + t.key, t.value))
  }

  lemma {:induction false} SplitTagJoin(key: string, value: string)
    requires '=' !in key
    ensures SplitTag(key + "=" + value) == Some(Tag(key, value))
    decreases |key|
  {
    var s := key + "=" + value;
    if key == [] {
      assert s[0] == '=' && s[1..] == value;
    } else {
      assert s[1..] == key[1..] + "=" + value;
      SplitTagJoin(key[1..], value);
      assert [key[0]] + key[1..] == key;
    }
  }

  /** Reads `-metadata key=value` pairs while at least one more argument
      (the target) follows them. */
  function ParseTags(args: seq<string>): (r: (seq<Tag>, seq<string>))
    ensures |r.1| <= |args|
    decreases |args|
  {
    if |args| >= 3 && args[0] == "-metadata" then
      match SplitTag(args[1])
      case None => ([], args)
      case Some(t) =>
        var (ts, rest) := ParseTags(args[2..]);
        ([t] + ts, rest)
    else ([], args)
  }

  /** Render, grouped as the source appends it. */
  lemma RenderInOrder(e: Encode)
    ensures Render(e) == Preamble + [e.input] + CoverArgs(e.cover) + (if e.mapStreams then MapFlags else [])
                         + (if e.streamCopy then CopyFlags else []) + TagArgs(e.tags) + e.compression + [e.target]
  {
    Reassociate(Preamble + [e.input], CoverArgs(e.cover), if e.mapStreams then MapFlags else [],
                if e.streamCopy then CopyFlags else [], TagArgs(e.tags), e.compression, [e.target]);
  }

  lemma Reassociate<T>(a: seq<T>, b: seq<T>, c: seq<T>, d: seq<T>, e: seq<T>, f: seq<T>, g: seq<T>)
    ensures a + (b + (c + (d + (e + (f + g))))) == a + b + c + d + e + f + g
  {
  }

  /** Takes a leading `-i <cover>` block with its attached-picture flags. */
  function StripCover(a: seq<string>): (Option<string>, seq<string>) {
    if |a| >= 8 && a[0] == "-i" && a[2..8] == CoverFlags then (Some(a[1]), a[8..]) else (None, a)
  }

  /** Takes a leading run of fixed flags. */
  function StripFlags(a: seq<string>, flags: seq<string>): (bool, seq<string>) {
    if |a| >= |flags| && a[..|flags|] == flags then (true, a[|flags|..]) else (false, a)
  }

  function Parse(args: seq<string>): Option<Encode>
  {
    if |args| < 6 || args[..4] != Preamble then None
    else
      var (cover, a1) := StripCover(args[5..]);
      var (mapStreams, a2) := StripFlags(a1, MapFlags);
      var (streamCopy, a3) := StripFlags(a2, CopyFlags);
      var (tags, a4) := ParseTags(a3);
      if a4 == [] then None
      else Some(Encode(args[4], cover, mapStreams, streamCopy, tags, a4[..|a4| - 1], a4[|a4| - 1]))
  }

  lemma StripCoverArgs(cover: Option<string>, rest: seq<string>)
    requires cover.None? ==> rest == [] || rest[0] != "-i"
    ensures StripCover(CoverArgs(cover) + rest) == (cover, rest)
  {
    var a := CoverArgs(cover) + rest;
    if cover.Some? {
      var head := ["-i", cover.value] + CoverFlags;
      ConcatSlices(head, rest);
      ConcatSlices(["-i", cover.value], CoverFlags);
      assert a == head + rest;
      assert a[0] == "-i" && a[1] == cover.value;
      assert a[..8] == head;
      assert a[2..8] == head[2..] == CoverFlags;
    } else {
      assert a == rest;
    }
  }

  lemma StripFlagsOf(present: bool, flags: seq<string>, rest: seq<string>)
    requires flags != []
    requires !present ==> rest == [] || rest[0] != flags[0]
    ensures StripFlags((if present then flags else []) + rest, flags) == (present, rest)
  {
    var a := (if present then flags else []) + rest;
    if present {
      assert a[..|flags|] == flags && a[|flags|..] == rest;
    } else {
      assert a == rest;
      if |a| >= |flags| {
        assert a[..|flags|][0] == rest[0] != flags[0];
      }
    }
  }

  /** The intents the compiler can produce: at least one tag, tag keys without
      `=`, and compression flags that cannot be taken for a tag. */
  predicate WellFormed(e: Encode) {
    && |e.tags| > 0
    && (forall i :: 0 <= i < |e.tags| ==> '=' !in e.tags[i].key)
    && (e.compression == [] || e.compression[0] != "-metadata")
  }

  /** One `-metadata` pair is read back as its tag. */
  lemma ParseTagsStep(t: Tag, rest: seq<string>)
    requires '=' !in t.key && |rest| > 0
    ensures ParseTags(TagPair(t) + rest) == ([t] + ParseTags(rest).0, ParseTags(rest).1)
  {
    var args := TagPair(t) + rest;
    ConcatSlices(TagPair(t), rest);
    assert args[0] == "-metadata" && args[1] == t.key + "=" + t.value && args[2..] == rest;
    SplitTagJoin(t.key, t.value);
  }

  lemma {:induction false} ParseTagArgs(tags: seq<Tag>, tail: seq<string>)
    requires forall i :: 0 <= i < |tags| ==> '=' !in tags[i].key
    requires |tail| > 0 && (|tail| < 3 || tail[0] != "-metadata")
    ensures ParseTags(TagArgs(tags) + tail) == (tags, tail)
    decreases |tags|
  {
    if tags == [] {
      assert TagArgs(tags) + tail == tail;
    } else {
      var more := TagArgs(tags[1..]) + tail;
      assert TagArgs(tags) + tail == TagPair(tags[0]) + more;
      ParseTagsStep(tags[0], more);
      assert forall i :: 0 <= i < |tags[1..]| ==> tags[1..][i] == tags[i + 1];
      ParseTagArgs(tags[1..], tail);
      assert [tags[0]] + tags[1..] == tags;
    }
  }

  lemma ConcatSlices<T>(a: seq<T>, b: seq<T>)
    ensures (a + b)[..|a|] == a && (a + b)[|a|..] == b
  {
  }

  /** Parse of the preamble and input followed by a body, in terms of its
      stages on that body. */
  lemma ParseByStages(input: string, a0: seq<string>, cover: Option<string>, a1: seq<string>, mapStreams: bool,
                      a2: seq<string>, streamCopy: bool, a3: seq<string>, tags: seq<Tag>, a4: seq<string>)
    requires StripCover(a0) == (cover, a1)
    requires StripFlags(a1, MapFlags) == (mapStreams, a2)
    requires StripFlags(a2, CopyFlags) == (streamCopy, a3)
    requires ParseTags(a3) == (tags, a4) && a4 != []
    ensures Parse(Preamble + [input] + a0)
            == Some(Encode(input, cover, mapStreams, streamCopy, tags, a4[..|a4| - 1], a4[|a4| - 1]))
  {
    var head := Preamble + [input];
    var args := head + a0;
    ConcatSlices(head, a0);
    assert |a1| <= |a0| && |a4| <= |a3| <= |a2| <= |a1|;
    assert args[..4] == Preamble && args[4] == input && args[5..] == a0;
  }

  /** Each stage of Parse takes off exactly the block Render put there. */
  lemma StagesOf(e: Encode)
    requires WellFormed(e)
    ensures
      var tail := e.compression + [e.target];
      var body := TagArgs(e.tags) + tail;
      var a2 := (if e.streamCopy then CopyFlags else []) + body;
      var a1 := (if e.mapStreams then MapFlags else []) + a2;
      && ParseTags(body) == (e.tags, tail)
      && StripFlags(a2, CopyFlags) == (e.streamCopy, body)
      && StripFlags(a1, MapFlags) == (e.mapStreams, a2)
      && StripCover(CoverArgs(e.cover) + a1) == (e.cover, a1)
  {
    var tail := e.compression + [e.target];
    ParseTagArgs(e.tags, tail);
    var body := TagArgs(e.tags) + tail;
    assert body[0] == "-metadata";
    var a2 := (if e.streamCopy then CopyFlags else []) + body;
    StripFlagsOf(e.streamCopy, CopyFlags, body);
    var a1 := (if e.mapStreams then MapFlags else []) + a2;
    StripFlagsOf(e.mapStreams, MapFlags, a2);
    StripCoverArgs(e.cover, a1);
  }

  /** The argument list of a well-formed intent reads back as that intent. */
  lemma RenderParse(e: Encode)
    requires WellFormed(e)
    ensures Parse(Render(e)) == Some(e)
  {
    StagesOf(e);
    var tail := e.compression + [e.target];
    var body := TagArgs(e.tags) + tail;
    var a2 := (if e.streamCopy then CopyFlags else []) + body;
    var a1 := (if e.mapStreams then MapFlags else []) + a2;
    var a0 := CoverArgs(e.cover) + a1;
    ParseByStages(e.input, a0, e.cover, a1, e.mapStreams, a2, e.streamCopy, body, e.tags, tail);
    assert Render(e) == Preamble + [e.input] + a0;
    assert tail[..|tail| - 1] == e.compression;
  }

  /** `-compression_level`, `-abr`, `-b:a` and `-q` settings per extension. */
  function Compression(ext: string): seq<string> {
    if ext == "flac" then ["-compression_level", "12"]
    else if ext == "mp3" then ["-compression_level", "0", "-abr", "1", "-b:a", "320k"]
    else if ext == "ogg" then ["-q", "10"]
    else []
  }

  /** The nine tags, in the order of the source; album_artist repeats the
      effective artist and comment carries the effective copyright. */
  function TrackTags(trackNumber: nat, album: Album, track: Track): seq<Tag> {
    [ Tag("track", Decimal(trackNumber)),
      Tag("title", track.title),
      Tag("album", album.title),
      Tag("genre", Override(album.genre, track.genre)),
      Tag("date", Override(album.date, track.date)),
      Tag("artist", Override(album.artist, track.artist)),
      Tag("album_artist", Override(album.artist, track.artist)),
      Tag("composer", Override(album.composer, track.composer)),
      Tag("comment", Override(album.copyright, track.copyright)) ]
  }

  /** What the command for one (track, extension) pair asks of ffmpeg. */
  function EncodeFor(input: string, target: string, ext: string, trackNumber: nat, album: Album, track: Track): Encode {
    var coverArt := Override(album.cover, track.cover);
    Encode(input,
           if |coverArt| > 0 && ext != "wav" then Some(coverArt) else None,
           |coverArt| > 0 && ext == "mp3",
           ext == "wav",
           TrackTags(trackNumber, album, track),
           Compression(ext),
           target)
  }

  function EncoderArgs(input: string, target: string, ext: string, trackNumber: nat, album: Album, track: Track): seq<string> {
    Render(EncodeFor(input, target, ext, trackNumber, album, track))
  }

  /** The argument list written out as the source appends it: the nine
      `-metadata` pairs in their fixed order. */
  lemma TrackTagArgs(trackNumber: nat, album: Album, track: Track)
    ensures TagArgs(TrackTags(trackNumber, album, track)) ==
      [ "-metadata", "track=" + Decimal(trackNumber),
        "-metadata", "title=" + track.title,
        "-metadata", "album=" + album.title,
        "-metadata", "genre=" + Override(album.genre, track.genre),
        "-metadata", "date=" + Override(album.date, track.date),
        "-metadata", "artist=" + Override(album.artist, track.artist),
        "-metadata", "album_artist=" + Override(album.artist, track.artist),
        "-metadata", "composer=" + Override(album.composer, track.composer),
        "-metadata", "comment=" + Override(album.copyright, track.copyright) ]
  {
    NineTagArgs(Decimal(trackNumber), track.title, album.title, Override(album.genre, track.genre),
                Override(album.date, track.date), Override(album.artist, track.artist),
                Override(album.artist, track.artist), Override(album.composer, track.composer),
                Override(album.copyright, track.copyright));
  }

  lemma NineTagArgs(v0: string, v1: string, v2: string, v3: string, v4: string, v5: string, v6: string, v7: string, v8: string)
    ensures TagArgs([Tag("track", v0), Tag("title", v1), Tag("album", v2), Tag("genre", v3), Tag("date", v4), Tag("artist", v5), Tag("album_artist", v6), Tag("composer", v7), Tag("comment", v8)]) ==
      ["-metadata", "track=" + v0, "-metadata", "title=" + v1, "-metadata", "album=" + v2, "-metadata", "genre=" + v3, "-metadata", "date=" + v4, "-metadata", "artist=" + v5, "-metadata", "album_artist=" + v6, "-metadata", "composer=" + v7, "-metadata", "comment=" + v8]
  {
    var ts := [Tag("track", v0), Tag("title", v1), Tag("album", v2), Tag("genre", v3), Tag("date", v4), Tag("artist", v5), Tag("album_artist", v6), Tag("composer", v7), Tag("comment", v8)];
    TagArgsAt(ts, 0);
    assert "track" + "=" == "track=";
    TagArgsAt(ts, 1);
    assert "title" + "=" == "title=";
    TagArgsAt(ts, 2);
    assert "album" + "=" == "album=";
    TagArgsAt(ts, 3);
    assert "genre" + "=" == "genre=";
    TagArgsAt(ts, 4);
    assert "date" + "=" == "date=";
    TagArgsAt(ts, 5);
    assert "artist" + "=" == "artist=";
    TagArgsAt(ts, 6);
    assert "album_artist" + "=" == "album_artist=";
    TagArgsAt(ts, 7);
    assert "composer" + "=" == "composer=";
    TagArgsAt(ts, 8);
    assert "comment" + "=" == "comment=";
  }

  lemma {:induction false} TagArgsAt(tags: seq<Tag>, k: nat)
    requires k < |tags|
    ensures TagArgs(tags)[2 * k] == "-metadata"
    ensures TagArgs(tags)[2 * k + 1] == tags[k].key + "=" + tags[k].value
    decreases k
  {
    if k > 0 {
      TagArgsAt(tags[1..], k - 1);
    }
  }

  /** What an argument list built for one (track, extension) pair says, read
      back from the list itself. */
  lemma EncoderArgsMeaning(input: string, target: string, ext: string, trackNumber: nat, album: Album, track: Track)
    ensures
      var args := EncoderArgs(input, target, ext, trackNumber, album, track);
      var coverArt := Override(album.cover, track.cover);
      && args[..5] == ["-loglevel", "error", "-y", "-i", input]
      && args[|args| - 1] == target
      && Parse(args).Some?
      && var e := Parse(args).value;
      && e.input == input && e.target == target
      // the cover image is a second input only when there is one and the format is not wav
      && (e.cover.Some? <==> |coverArt| > 0 && ext != "wav")
      && (e.cover.Some? ==> e.cover.value == coverArt)
      // stream mapping and ID3v2.3 only for an mp3 with a cover
      && (e.mapStreams <==> |coverArt| > 0 && ext == "mp3")
      // stream copy exactly for wav
      && (e.streamCopy <==> ext == "wav")
      && e.tags == TrackTags(trackNumber, album, track)
      && |e.tags| == 9
      && e.tags[0] == Tag("track", Decimal(trackNumber))
      && e.tags[6] == Tag("album_artist", Override(album.artist, track.artist))
      && e.tags[8] == Tag("comment", Override(album.copyright, track.copyright))
      // compression flags depend on the extension alone
      && (ext == "flac" ==> e.compression == ["-compression_level", "12"])
      && (ext == "mp3" ==> e.compression == ["-compression_level", "0", "-abr", "1", "-b:a", "320k"])
      && (ext == "ogg" ==> e.compression == ["-q", "10"])
      && (ext != "flac" && ext != "mp3" && ext != "ogg" ==> e.compression == [])
  {
    var e := EncodeFor(input, target, ext, trackNumber, album, track);
    EncodeForWellFormed(input, target, ext, trackNumber, album, track);
    RenderParse(e);
    EncodeForFields(input, target, ext, trackNumber, album, track);
  }

  /** No tag key the compiler uses contains `=`, and no compression setting
      starts with `-metadata`. */
  lemma EncodeForWellFormed(input: string, target: string, ext: string, trackNumber: nat, album: Album, track: Track)
    ensures WellFormed(EncodeFor(input, target, ext, trackNumber, album, track))
  {
    var tags := TrackTags(trackNumber, album, track);
    forall i | 0 <= i < |tags| ensures '=' !in tags[i].key {
      KeyHasNoEquals(tags[i].key);
    }
  }

  lemma KeyHasNoEquals(key: string)
    requires key in ["track", "title", "album", "genre", "date", "artist", "album_artist", "composer", "comment"]
    ensures '=' !in key
  {
  }

  /** The request for one pair, field by field. */
  lemma EncodeForFields(input: string, target: string, ext: string, trackNumber: nat, album: Album, track: Track)
    ensures
      var e := EncodeFor(input, target, ext, trackNumber, album, track);
      var coverArt := Override(album.cover, track.cover);
      && (e.cover.Some? <==> |coverArt| > 0 && ext != "wav")
      && (e.cover.Some? ==> e.cover.value == coverArt)
      && (e.mapStreams <==> |coverArt| > 0 && ext == "mp3")
      && (e.streamCopy <==> ext == "wav")
      && |e.tags| == 9
      && e.tags[0] == Tag("track", Decimal(trackNumber))
      && e.tags[6] == Tag("album_artist", Override(album.artist, track.artist))
      && e.tags[8] == Tag("comment", Override(album.copyright, track.copyright))
      && (ext == "flac" ==> e.compression == ["-compression_level", "12"])
      && (ext == "mp3" ==> e.compression == ["-compression_level", "0", "-abr", "1", "-b:a", "320k"])
      && (ext == "ogg" ==> e.compression == ["-q", "10"])
      && (ext != "flac" && ext != "mp3" && ext != "ogg" ==> e.compression == [])
  {
  }
}
