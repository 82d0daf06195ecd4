/**
  The two-pass composition in `generateFanlinks` and the page records it
  collects: label conflicts are resolved first, song-number conflicts second,
  and one page is generated per resolved song, in the order pass 2 returns
  them.
 */
module Fanlinks {
  import opened Records
  import Slug
  import LabelConflicts
  import SongNumberConflicts
  import Paths

  /** The songs after both conflict-resolution passes. */
  function Resolved(rawSongs: seq<Song>): seq<ResolvedSong> {
    SongNumberConflicts.ResolveSongNumbers(LabelConflicts.ResolveLabels(rawSongs))
  }

  /** The page record of every song, in order. */
  function Pages(songs: seq<ResolvedSong>): (r: seq<Paths.PageInfo>)
    ensures |r| == |songs|
  {
    seq(|songs|, i requires 0 <= i < |songs| => Paths.FanlinkPage(songs[i]))
  }

  /** `resolveLabelConflicts` followed by `resolveSongNumberConflicts`. */
  method ResolveConflicts(rawSongs: seq<Song>) returns (songsWithResolvedConflicts: seq<ResolvedSong>)
    ensures songsWithResolvedConflicts == Resolved(rawSongs)
  {
    var songsWithResolvedLabelConflicts := LabelConflicts.ResolveLabelConflicts(rawSongs);
    songsWithResolvedConflicts := SongNumberConflicts.ResolveSongNumberConflicts(songsWithResolvedLabelConflicts);
  }

  /** The page loop: push the page record of each song. */
  method GeneratePages(songs: seq<ResolvedSong>) returns (generatedPages: seq<Paths.PageInfo>)
    ensures generatedPages == Pages(songs)
  {
    generatedPages := [];
    for i := 0 to |songs|
      invariant generatedPages == Pages(songs[..i])
    {
      var pageInfo := Paths.FanlinkPage(songs[i]);
      generatedPages := generatedPages + [pageInfo];
    }
    assert songs[..|songs|] == songs;
  }

  /** `generateFanlinks` without its file and console I/O. */
  method GenerateFanlinks(rawSongs: seq<Song>) returns (generatedPages: seq<Paths.PageInfo>)
    ensures generatedPages == Pages(Resolved(rawSongs))
  {
    var songsWithResolvedConflicts := ResolveConflicts(rawSongs);
    generatedPages := GeneratePages(songsWithResolvedConflicts);
  }

  /** One page per catalogue entry. */
  lemma PageCount(rawSongs: seq<Song>)
    ensures |Pages(Resolved(rawSongs))| == |rawSongs|
  {
    SongNumberConflicts.ResolveSongNumbersLength(LabelConflicts.ResolveLabels(rawSongs));
  }

  /**
    Each resolved song is the pass-1 record of some catalogue entry `a`: its
    label is that entry's slug, and its final number is at least 1.
   */
  lemma ResolvedSource(rawSongs: seq<Song>, i: int) returns (a: int)
    requires 0 <= i < |Resolved(rawSongs)|
    ensures 0 <= a < |rawSongs|
    ensures Resolved(rawSongs)[i].labelled == LabelConflicts.ResolveLabels(rawSongs)[a]
    ensures Resolved(rawSongs)[i].labelled.normalizedLabel == Slug.Normalize(rawSongs[a].labelName)
    ensures Slug.IsSlug(Resolved(rawSongs)[i].labelled.normalizedLabel)
    ensures Resolved(rawSongs)[i].finalSongNumber >= 1
  {
    var labelled := LabelConflicts.ResolveLabels(rawSongs);
    var keys := SongNumberConflicts.GroupKeys(labelled);
    SongNumberConflicts.ResolveGroupsMember(labelled, keys, i);
    a :| 0 <= a < |labelled| && labelled[a] == Resolved(rawSongs)[i].labelled;
    LabelConflicts.ResolveLabelsSpec(rawSongs, a);
    Slug.NormalizeIsSlug(rawSongs[a].labelName);
  }

  /** Two pages of one label slug and one label id have different URLs and different files. */
  lemma SameLabelDistinctPages(rawSongs: seq<Song>, i: int, j: int)
    requires 0 <= i < |Resolved(rawSongs)| && 0 <= j < |Resolved(rawSongs)| && i != j
    requires Resolved(rawSongs)[i].labelled.normalizedLabel == Resolved(rawSongs)[j].labelled.normalizedLabel
    requires Resolved(rawSongs)[i].labelled.song.labelId == Resolved(rawSongs)[j].labelled.song.labelId
    ensures Pages(Resolved(rawSongs))[i].url != Pages(Resolved(rawSongs))[j].url
    ensures Pages(Resolved(rawSongs))[i].filePath != Pages(Resolved(rawSongs))[j].filePath
  {
    var r := Resolved(rawSongs);
    var x, y := r[i], r[j];
    var a := ResolvedSource(rawSongs, i);
    var b := ResolvedSource(rawSongs, j);
    SameSlugSameFlag(rawSongs, a, b);
    SongNumberConflicts.ResolveSongNumbersSpec(LabelConflicts.ResolveLabels(rawSongs));
    assert SongNumberConflicts.GroupKey(x.labelled) == SongNumberConflicts.GroupKey(y.labelled);
    assert x.finalSongNumber != y.finalSongNumber by {
      if i < j {
        assert 0 <= i < j < |r|;
      } else {
        assert 0 <= j < i < |r|;
      }
    }
    var f := Paths.LabelFolderName(x.labelled.normalizedLabel, x.labelled.song.labelId, x.labelled.isDuplicateLabel);
    Paths.LabelFolderNameNoSlash(x.labelled.normalizedLabel, x.labelled.song.labelId, x.labelled.isDuplicateLabel);
    Paths.PageUrlInjective(f, x.finalSongNumber, f, y.finalSongNumber);
    Paths.PageFileInjective(f, x.finalSongNumber, y.finalSongNumber);
  }

  /** Entries with the same slug get the same duplicate flag. */
  lemma SameSlugSameFlag(rawSongs: seq<Song>, a: int, b: int)
    requires 0 <= a < |rawSongs| && 0 <= b < |rawSongs|
    requires Slug.Normalize(rawSongs[a].labelName) == Slug.Normalize(rawSongs[b].labelName)
    ensures LabelConflicts.ResolveLabels(rawSongs)[a].isDuplicateLabel == LabelConflicts.ResolveLabels(rawSongs)[b].isDuplicateLabel
  {
  }

  /**
    Two different pages of one label slug share a URL only when their label
    ids differ and neither exceeds 1, so that both folders are the bare slug.
   */
  lemma UrlCollisionsWithinSlug(rawSongs: seq<Song>, i: int, j: int)
    requires 0 <= i < |Resolved(rawSongs)| && 0 <= j < |Resolved(rawSongs)| && i != j
    requires Resolved(rawSongs)[i].labelled.normalizedLabel == Resolved(rawSongs)[j].labelled.normalizedLabel
    requires Pages(Resolved(rawSongs))[i].url == Pages(Resolved(rawSongs))[j].url
    ensures Resolved(rawSongs)[i].labelled.song.labelId != Resolved(rawSongs)[j].labelled.song.labelId
    ensures Resolved(rawSongs)[i].labelled.song.labelId <= 1 && Resolved(rawSongs)[j].labelled.song.labelId <= 1
  {
    var r := Resolved(rawSongs);
    var x, y := r[i].labelled, r[j].labelled;
    var slug := x.normalizedLabel;
    if x.song.labelId == y.song.labelId {
      SameLabelDistinctPages(rawSongs, i, j);
    } else {
      var a := ResolvedSource(rawSongs, i);
      var b := ResolvedSource(rawSongs, j);
      var labelled := LabelConflicts.ResolveLabels(rawSongs);
      assert a != b;
      var slugs := LabelConflicts.Slugs(rawSongs);
      LabelConflicts.ResolveLabelsSpec(rawSongs, a);
      assert slugs[b] == slugs[a];
      assert x.isDuplicateLabel && y.isDuplicateLabel;
      var fx := Paths.LabelFolderName(slug, x.song.labelId, true);
      var fy := Paths.LabelFolderName(slug, y.song.labelId, true);
      Paths.LabelFolderNameNoSlash(slug, x.song.labelId, true);
      Paths.LabelFolderNameNoSlash(slug, y.song.labelId, true);
      Paths.PageUrlInjective(fx, r[i].finalSongNumber, fy, r[j].finalSongNumber);
      assert fx == fy;
      Paths.LabelFolderNameSuffix(slug, x.song.labelId, true);
      Paths.LabelFolderNameSuffix(slug, y.song.labelId, true);
      if x.song.labelId > 1 && y.song.labelId > 1 {
        Paths.LabelFolderNameInjective(slug, x.song.labelId, y.song.labelId);
      }
    }
  }
}
