/**
  Label-conflict resolution (`resolveLabelConflicts`).

  A first pass counts, per slug, how many songs carry it and which truthy
  (non-zero) label ids they state.  A second pass clones every song in input
  order, tags it with its slug and with "more than one song has this slug",
  and fills in a label id of 0.  The per-slug cursor starts at
  `max(maxExisting, 1) + 1`, the id handed out is `cursor - 1`, and the cursor
  is then set back to `id + 1`, so it never moves: every unassigned song of a
  slug receives the same id, `UnassignedId`.
 */
module LabelConflicts {
  import opened Records
  import Slug

  /** The slug of every song of `songs`, position by position. */
  function Slugs(songs: seq<Song>): (r: seq<string>)
    ensures |r| == |songs|
  {
    seq(|songs|, i requires 0 <= i < |songs| => Slug.Normalize(songs[i].labelName))
  }

  /**
    `slugs` holds the slug of every song of `songs`.  The trigger keeps the
    fact dormant until a normalisation of that very label name is in play.
   */
  predicate IsSlugColumn(songs: seq<Song>, slugs: seq<string>) {
    && |slugs| == |songs|
    && forall i {:trigger Slug.Normalize(songs[i].labelName)} ::
         0 <= i < |songs| ==> slugs[i] == Slug.Normalize(songs[i].labelName)
  }

  lemma SlugsColumn(songs: seq<Song>)
    ensures IsSlugColumn(songs, Slugs(songs))
  {
  }

  /** `normalizeLabelName(songs[i].label_name)` */
  method NormalizeLabelOf(songs: seq<Song>, ghost slugs: seq<string>, i: int) returns (normalizedLabel: string)
    requires IsSlugColumn(songs, slugs) && 0 <= i < |songs|
    ensures normalizedLabel == slugs[i]
  {
    normalizedLabel := Slug.Normalize(songs[i].labelName);
  }

  /** How many entries of `slugs` equal `slug`. */
  function CountSlug(slugs: seq<string>, slug: string): nat {
    if slugs == [] then 0
    else CountSlug(slugs[..|slugs| - 1], slug) + (if slugs[|slugs| - 1] == slug then 1 else 0)
  }

  /** The truthy label ids stated by the songs whose slug is `slug`. */
  function ExplicitIds(songs: seq<Song>, slugs: seq<string>, slug: string): set<int>
    requires |slugs| == |songs|
  {
    if songs == [] then {}
    else
      var n := |songs| - 1;
      ExplicitIds(songs[..n], slugs[..n], slug) + (if slugs[n] == slug && songs[n].labelId != 0 then {songs[n].labelId} else {})
  }

  /** `max(1, largest explicit id of the slug)`: the id every unassigned song of the slug receives. */
  function UnassignedId(songs: seq<Song>, slugs: seq<string>, slug: string): int
    requires |slugs| == |songs|
  {
    if songs == [] then 1
    else
      var n := |songs| - 1;
      var prev := UnassignedId(songs[..n], slugs[..n], slug);
      if slugs[n] == slug && songs[n].labelId != 0 && songs[n].labelId > prev then songs[n].labelId else prev
  }

  /** The record the second pass produces for `song`, whose slug is `slug`. */
  function ResolveLabel(songs: seq<Song>, slugs: seq<string>, song: Song, slug: string): LabelledSong
    requires |slugs| == |songs|
  {
    var id := if song.labelId == 0 then UnassignedId(songs, slugs, slug) else song.labelId;
    LabelledSong(song.(labelId := id), slug, CountSlug(slugs, slug) > 1)
  }

  /** The output of the second pass, given the slug column. */
  function ResolveLabelsWith(songs: seq<Song>, slugs: seq<string>): (r: seq<LabelledSong>)
    requires |slugs| == |songs|
    ensures |r| == |songs|
  {
    seq(|songs|, i requires 0 <= i < |songs| => ResolveLabel(songs, slugs, songs[i], slugs[i]))
  }

  /** The output of `resolveLabelConflicts(songs)`. */
  function ResolveLabels(songs: seq<Song>): (r: seq<LabelledSong>)
    ensures |r| == |songs|
  {
    ResolveLabelsWith(songs, Slugs(songs))
  }

  lemma {:induction false} ExplicitIdsMembers(songs: seq<Song>, slugs: seq<string>, slug: string, x: int)
    requires |slugs| == |songs|
    ensures x in ExplicitIds(songs, slugs, slug) <==>
      exists j :: 0 <= j < |songs| && slugs[j] == slug && songs[j].labelId != 0 && songs[j].labelId == x
  {
    if songs != [] {
      var n := |songs| - 1;
      var p, q := songs[..n], slugs[..n];
      ExplicitIdsMembers(p, q, slug, x);
      if x in ExplicitIds(p, q, slug) {
        var j :| 0 <= j < |p| && q[j] == slug && p[j].labelId != 0 && p[j].labelId == x;
        assert songs[j] == p[j] && slugs[j] == q[j];
      }
      if exists j :: 0 <= j < |songs| && slugs[j] == slug && songs[j].labelId != 0 && songs[j].labelId == x {
        var j :| 0 <= j < |songs| && slugs[j] == slug && songs[j].labelId != 0 && songs[j].labelId == x;
        if j < n {
          assert p[j] == songs[j] && q[j] == slugs[j];
        }
      }
    }
  }

  /**
    The id given to unassigned songs is at least 1, at least every explicit id
    of the slug, and is either 1 or one of those explicit ids.
   */
  lemma {:induction false} UnassignedIdBounds(songs: seq<Song>, slugs: seq<string>, slug: string)
    requires |slugs| == |songs|
    ensures UnassignedId(songs, slugs, slug) >= 1
    ensures forall x :: x in ExplicitIds(songs, slugs, slug) ==> x <= UnassignedId(songs, slugs, slug)
    ensures UnassignedId(songs, slugs, slug) == 1 || UnassignedId(songs, slugs, slug) in ExplicitIds(songs, slugs, slug)
  {
    if songs != [] {
      var n := |songs| - 1;
      UnassignedIdBounds(songs[..n], slugs[..n], slug);
    }
  }

  lemma {:induction false} CountSlugPositive(slugs: seq<string>, slug: string)
    ensures CountSlug(slugs, slug) >= 1 <==> slug in slugs
  {
    if slugs != [] {
      var p := slugs[..|slugs| - 1];
      CountSlugPositive(p, slug);
      assert slugs == p + [slugs[|slugs| - 1]];
    }
  }

  /** More than one entry equals `slug` exactly when two different positions hold it. */
  lemma {:induction false} CountSlugShared(slugs: seq<string>, slug: string)
    ensures CountSlug(slugs, slug) >= 2 <==>
      exists i, j :: 0 <= i < j < |slugs| && slugs[i] == slug && slugs[j] == slug
  {
    if slugs != [] {
      var n := |slugs| - 1;
      var p := slugs[..n];
      CountSlugShared(p, slug);
      CountSlugPositive(p, slug);
      if CountSlug(slugs, slug) >= 2 {
        if CountSlug(p, slug) >= 2 {
          var i, j :| 0 <= i < j < |p| && p[i] == slug && p[j] == slug;
          assert slugs[i] == p[i] && slugs[j] == p[j];
        } else {
          var i :| 0 <= i < |p| && p[i] == slug;
          assert slugs[i] == p[i];
        }
      }
      if exists i, j :: 0 <= i < j < |slugs| && slugs[i] == slug && slugs[j] == slug {
        var i, j :| 0 <= i < j < |slugs| && slugs[i] == slug && slugs[j] == slug;
        assert p[i] == slugs[i];
        if j < n {
          assert p[j] == slugs[j];
        }
      }
    }
  }

  /** The duplicate flag of position `i` holds exactly when another position has the same slug. */
  lemma DuplicateIffShared(slugs: seq<string>, i: int)
    requires 0 <= i < |slugs|
    ensures CountSlug(slugs, slugs[i]) > 1 <==> exists j :: 0 <= j < |slugs| && j != i && slugs[j] == slugs[i]
  {
    CountSlugShared(slugs, slugs[i]);
    if exists j :: 0 <= j < |slugs| && j != i && slugs[j] == slugs[i] {
      var j :| 0 <= j < |slugs| && j != i && slugs[j] == slugs[i];
      if i < j {
        assert 0 <= i < j < |slugs| && slugs[i] == slugs[i] && slugs[j] == slugs[i];
      } else {
        assert 0 <= j < i < |slugs| && slugs[j] == slugs[i] && slugs[i] == slugs[i];
      }
    }
  }

  /**
    What pass 1 promises for each position: the same song with the same
    fields except the label id, the slug of its label name, the duplicate flag
    exactly when another song shares the slug, an explicit id kept as is
    (negative ids included), and an absent or zero id replaced by the per-slug
    value, which is at least 1, at least every explicit id of the slug, and
    either 1 or an id some song of the slug states.
   */
  lemma ResolveLabelsSpec(songs: seq<Song>, i: int)
    requires 0 <= i < |songs|
    ensures var r := ResolveLabels(songs)[i];
      var slugs := Slugs(songs);
      && r.song.(labelId := songs[i].labelId) == songs[i]
      && r.normalizedLabel == Slug.Normalize(songs[i].labelName)
      && (r.isDuplicateLabel <==> exists j :: 0 <= j < |songs| && j != i && slugs[j] == slugs[i])
      && (songs[i].labelId != 0 ==> r.song == songs[i])
      && (songs[i].labelId == 0 ==>
            && r.song.labelId >= 1
            && (forall j :: 0 <= j < |songs| && slugs[j] == slugs[i] && songs[j].labelId != 0 ==>
                 songs[j].labelId <= r.song.labelId)
            && (r.song.labelId == 1 ||
                exists j :: 0 <= j < |songs| && slugs[j] == slugs[i] && songs[j].labelId != 0 &&
                  songs[j].labelId == r.song.labelId))
  {
    var slugs := Slugs(songs);
    DuplicateIffShared(slugs, i);
    UnassignedIdBounds(songs, slugs, slugs[i]);
    ExplicitIdsMembers(songs, slugs, slugs[i], UnassignedId(songs, slugs, slugs[i]));
    forall j | 0 <= j < |songs| && slugs[j] == slugs[i] && songs[j].labelId != 0
      ensures songs[j].labelId in ExplicitIds(songs, slugs, slugs[i])
    {
      ExplicitIdsMembers(songs, slugs, slugs[i], songs[j].labelId);
    }
  }

  /** All songs of one slug whose id was absent or zero end up with the same id. */
  lemma UnassignedIdsAgree(songs: seq<Song>, i: int, j: int)
    requires 0 <= i < |songs| && 0 <= j < |songs|
    requires Slug.Normalize(songs[i].labelName) == Slug.Normalize(songs[j].labelName)
    requires songs[i].labelId == 0 && songs[j].labelId == 0
    ensures ResolveLabels(songs)[i].song.labelId == ResolveLabels(songs)[j].song.labelId
  {
  }

  lemma CountSlugSnoc(slugs: seq<string>, i: int, slug: string)
    requires 0 <= i < |slugs|
    ensures CountSlug(slugs[..i + 1], slug) == CountSlug(slugs[..i], slug) + (if slugs[i] == slug then 1 else 0)
  {
    assert slugs[..i + 1][..i] == slugs[..i];
  }

  lemma ExplicitIdsSnoc(songs: seq<Song>, slugs: seq<string>, i: int, slug: string)
    requires |slugs| == |songs| && 0 <= i < |songs|
    ensures ExplicitIds(songs[..i + 1], slugs[..i + 1], slug) ==
      ExplicitIds(songs[..i], slugs[..i], slug) + (if slugs[i] == slug && songs[i].labelId != 0 then {songs[i].labelId} else {})
  {
    assert songs[..i + 1][..i] == songs[..i] && slugs[..i + 1][..i] == slugs[..i];
  }

  /** The values held by a JavaScript `Set`, modelled as its insertion-ordered sequence. */
  function Elements(s: seq<int>): set<int> {
    set x | x in s
  }

  /** `Math.max(...ids)`, with `None` for the `-Infinity` of an empty array. */
  method MaxOf(ids: seq<int>) returns (m: Option<int>)
    ensures m.None? <==> ids == []
    ensures m.Some? ==> m.value in ids && forall x :: x in ids ==> x <= m.value
  {
    m := None;
    for k := 0 to |ids|
      invariant m.None? <==> k == 0
      invariant m.Some? ==> m.value in ids && forall j :: 0 <= j < k ==> ids[j] <= m.value
    {
      if m.None? || ids[k] > m.value {
        m := Some(ids[k]);
      }
    }
  }

  /** `Math.max(maxExistingId, 1)`, where `None` stands for `-Infinity`. */
  function AtLeastOne(m: Option<int>): int {
    match m
    case None => 1
    case Some(v) => if v > 1 then v else 1
  }

  /** The cursor's starting value, less one, is the id for unassigned songs of the slug. */
  lemma CursorStart(songs: seq<Song>, slugs: seq<string>, slug: string, ids: seq<int>, m: Option<int>)
    requires |slugs| == |songs|
    requires Elements(ids) == ExplicitIds(songs, slugs, slug)
    requires m.None? <==> ids == []
    requires m.Some? ==> m.value in ids && forall x :: x in ids ==> x <= m.value
    ensures AtLeastOne(m) == UnassignedId(songs, slugs, slug)
  {
    UnassignedIdBounds(songs, slugs, slug);
    var u := UnassignedId(songs, slugs, slug);
    if m.Some? {
      assert m.value in Elements(ids);
      if u != 1 {
        assert u in Elements(ids);
      }
    } else {
      assert Elements(ids) == {};
    }
  }

  /** The occurrence counts the first pass builds from the slugs seen so far. */
  function CountMap(slugs: seq<string>): map<string, nat> {
    if slugs == [] then map[]
    else
      var m := CountMap(slugs[..|slugs| - 1]);
      var l := slugs[|slugs| - 1];
      m[l := (if l in m then m[l] else 0) + 1]
  }

  /**
    The id sets the first pass builds.  A JavaScript `Set` keeps its elements
    in insertion order without repetition, so each is a sequence here.
   */
  function IdsMap(songs: seq<Song>, slugs: seq<string>): map<string, seq<int>>
    requires |slugs| == |songs|
  {
    if songs == [] then map[]
    else
      var n := |songs| - 1;
      var m := IdsMap(songs[..n], slugs[..n]);
      var l := slugs[n];
      var ids := if l in m then m[l] else [];
      m[l := if songs[n].labelId != 0 && songs[n].labelId !in ids then ids + [songs[n].labelId] else ids]
  }

  /** The count map has an entry for exactly the slugs seen, holding how often each was seen. */
  lemma {:induction false} CountMapSpec(slugs: seq<string>, l: string)
    ensures l in CountMap(slugs) <==> l in slugs
    ensures l in CountMap(slugs) ==> CountMap(slugs)[l] == CountSlug(slugs, l)
  {
    if slugs != [] {
      var p := slugs[..|slugs| - 1];
      CountMapSpec(p, l);
      CountSlugPositive(p, l);
      assert slugs == p + [slugs[|slugs| - 1]];
    }
  }

  /**
    The id map has the same keys as the count map; under each slug it holds,
    without repetition, exactly the truthy ids stated for that slug.
   */
  lemma {:induction false} IdsMapSpec(songs: seq<Song>, slugs: seq<string>, l: string)
    requires |slugs| == |songs|
    ensures l in IdsMap(songs, slugs) <==> l in slugs
    ensures l in IdsMap(songs, slugs) ==> Elements(IdsMap(songs, slugs)[l]) == ExplicitIds(songs, slugs, l)
    ensures l !in slugs ==> ExplicitIds(songs, slugs, l) == {}
  {
    if songs != [] {
      var n := |songs| - 1;
      var p, q := songs[..n], slugs[..n];
      IdsMapSpec(p, q, l);
      assert slugs == q + [slugs[n]];
      var m := IdsMap(p, q);
      if l == slugs[n] {
        var ids := if l in m then m[l] else [];
        assert Elements(ids) == ExplicitIds(p, q, l);
        assert Elements(ids + [songs[n].labelId]) == Elements(ids) + {songs[n].labelId};
      }
    }
  }

  lemma CountMapSnoc(slugs: seq<string>, i: int)
    requires 0 <= i < |slugs|
    ensures var m, l := CountMap(slugs[..i]), slugs[i];
      CountMap(slugs[..i + 1]) == m[l := (if l in m then m[l] else 0) + 1]
  {
    assert slugs[..i + 1][..i] == slugs[..i];
  }

  lemma IdsMapSnoc(songs: seq<Song>, slugs: seq<string>, i: int)
    requires |slugs| == |songs| && 0 <= i < |songs|
    ensures var m, l := IdsMap(songs[..i], slugs[..i]), slugs[i];
      var ids := if l in m then m[l] else [];
      IdsMap(songs[..i + 1], slugs[..i + 1]) ==
        m[l := if songs[i].labelId != 0 && songs[i].labelId !in ids then ids + [songs[i].labelId] else ids]
  {
    assert songs[..i + 1][..i] == songs[..i] && slugs[..i + 1][..i] == slugs[..i];
  }

  /** The first pass of `resolveLabelConflicts`: occurrences and truthy ids per slug. */
  method CountLabels(songs: seq<Song>, ghost slugs: seq<string>)
    returns (labelNameToIds: map<string, seq<int>>, labelNameToCount: map<string, nat>)
    requires IsSlugColumn(songs, slugs)
    ensures labelNameToCount == CountMap(slugs)
    ensures labelNameToIds == IdsMap(songs, slugs)
  {
    labelNameToIds := map[];
    labelNameToCount := map[];
    for i := 0 to |songs|
      invariant labelNameToCount == CountMap(slugs[..i])
      invariant labelNameToIds == IdsMap(songs[..i], slugs[..i])
    {
      var song := songs[i];
      var normalizedLabel := NormalizeLabelOf(songs, slugs, i);
      CountMapSnoc(slugs, i);
      IdsMapSnoc(songs, slugs, i);
      var count := if normalizedLabel in labelNameToCount then labelNameToCount[normalizedLabel] else 0;
      labelNameToCount := labelNameToCount[normalizedLabel := count + 1];
      if normalizedLabel !in labelNameToIds {
        labelNameToIds := labelNameToIds[normalizedLabel := []];
      }
      if song.labelId != 0 && song.labelId !in labelNameToIds[normalizedLabel] {
        labelNameToIds := labelNameToIds[normalizedLabel := labelNameToIds[normalizedLabel] + [song.labelId]];
      }
    }
    assert songs[..|songs|] == songs && slugs[..|songs|] == slugs;
  }

  /**
    The second pass of `resolveLabelConflicts`: clone every song in order, tag
    it with its slug and duplicate flag, and fill in an absent or zero id from
    the per-slug cursor.
   */
  method AssignLabels(songs: seq<Song>, ghost slugs: seq<string>,
                      labelNameToIds: map<string, seq<int>>, labelNameToCount: map<string, nat>)
    returns (processedSongs: seq<LabelledSong>)
    requires IsSlugColumn(songs, slugs)
    requires labelNameToCount == CountMap(slugs)
    requires labelNameToIds == IdsMap(songs, slugs)
    ensures processedSongs == ResolveLabelsWith(songs, slugs)
  {
    processedSongs := [];
    var labelNameToNextId: map<string, int> := map[];
    for i := 0 to |songs|
      invariant processedSongs == ResolveLabelsWith(songs, slugs)[..i]
      invariant forall l :: l in labelNameToNextId ==> labelNameToNextId[l] == UnassignedId(songs, slugs, l) + 1
    {
      var song := songs[i];
      var normalizedLabel := NormalizeLabelOf(songs, slugs, i);
      CountMapSpec(slugs, normalizedLabel);
      IdsMapSpec(songs, slugs, normalizedLabel);
      var isDuplicateLabel := labelNameToCount[normalizedLabel] > 1;
      if normalizedLabel !in labelNameToNextId {
        var maxExistingId := MaxOf(labelNameToIds[normalizedLabel]);
        CursorStart(songs, slugs, normalizedLabel, labelNameToIds[normalizedLabel], maxExistingId);
        labelNameToNextId := labelNameToNextId[normalizedLabel := AtLeastOne(maxExistingId) + 1];
      }
      var processedSong := LabelledSong(song, normalizedLabel, isDuplicateLabel);
      if song.labelId == 0 {
        var id := labelNameToNextId[normalizedLabel] - 1;
        processedSong := processedSong.(song := song.(labelId := id));
        labelNameToNextId := labelNameToNextId[normalizedLabel := id + 1];
      }
      assert processedSong == ResolveLabelsWith(songs, slugs)[i];
      assert ResolveLabelsWith(songs, slugs)[..i + 1] == ResolveLabelsWith(songs, slugs)[..i] + [processedSong];
      processedSongs := processedSongs + [processedSong];
    }
    assert processedSongs == ResolveLabelsWith(songs, slugs)[..|songs|];
  }

  /** `resolveLabelConflicts(songs)` */
  method ResolveLabelConflicts(songs: seq<Song>) returns (processedSongs: seq<LabelledSong>)
    ensures processedSongs == ResolveLabels(songs)
  {
    ghost var slugs := Slugs(songs);
    SlugsColumn(songs);
    var labelNameToIds, labelNameToCount := CountLabels(songs, slugs);
    processedSongs := AssignLabels(songs, slugs, labelNameToIds, labelNameToCount);
  }

  /** The cursor is never advanced: with no explicit id under a slug every song of it gets id 1. */
  lemma NoExplicitIdsGiveOne(songs: seq<Song>, i: int)
    requires 0 <= i < |songs| && songs[i].labelId == 0
    requires forall j :: 0 <= j < |songs| && Slugs(songs)[j] == Slugs(songs)[i] ==> songs[j].labelId == 0
    ensures ResolveLabels(songs)[i].song.labelId == 1
  {
    var slugs := Slugs(songs);
    forall x | x in ExplicitIds(songs, slugs, slugs[i]) ensures false {
      ExplicitIdsMembers(songs, slugs, slugs[i], x);
    }
    assert ExplicitIds(songs, slugs, slugs[i]) == {};
    UnassignedIdBounds(songs, slugs, slugs[i]);
    assert ResolveLabels(songs)[i].song.labelId == UnassignedId(songs, slugs, slugs[i]);
  }

  /** An explicit id 5 and an unassigned song under one slug: the unassigned one also gets 5, not 6. */
  lemma ExplicitFiveShared(a: Song, b: Song)
    requires Slug.Normalize(a.labelName) == Slug.Normalize(b.labelName)
    requires a.labelId == 5 && b.labelId == 0
    ensures ResolveLabels([a, b])[1].song.labelId == 5
  {
    var songs := [a, b];
    var slugs := Slugs(songs);
    assert slugs[0] == slugs[1];
    assert songs[..1] == [a] && slugs[..1] == [slugs[0]];
    assert [a][..0] == [] && [slugs[0]][..0] == [];
    assert UnassignedId([a], [slugs[0]], slugs[0]) == 5;
    assert UnassignedId(songs, slugs, slugs[1]) == 5;
  }
}
