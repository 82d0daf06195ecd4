/**
  Song-number conflict resolution (`resolveSongNumberConflicts`).

  The songs are grouped by the string key `${normalized_label}-${label_id}`
  in a Map, whose keys keep the order in which they were first seen.  Each
  group is sorted by requested song number and walked by the allocation of
  module `Allocation`; the records of the groups are pushed one group after
  another.
 */
module SongNumberConflicts {
  import opened Records
  import Decimal
  import StableSort
  import Allocation
  import Slug

  /** The Map key of a song: `${normalized_label}-${label_id}`. */
  function GroupKey(s: LabelledSong): string {
    s.normalizedLabel + "-" + Decimal.IntToString(s.song.labelId)
  }

  /** The key of every song, position by position. */
  function KeyColumn(songs: seq<LabelledSong>): (ks: seq<string>)
    ensures |ks| == |songs|
  {
    if songs == [] then [] else KeyColumn(songs[..|songs| - 1]) + [GroupKey(songs[|songs| - 1])]
  }

  lemma {:induction false} KeyColumnAt(songs: seq<LabelledSong>)
    ensures forall i :: 0 <= i < |songs| ==> KeyColumn(songs)[i] == GroupKey(songs[i])
  {
    if songs != [] {
      var p := songs[..|songs| - 1];
      KeyColumnAt(p);
      assert forall i :: 0 <= i < |p| ==> songs[i] == p[i];
    }
  }

  /** The distinct entries of `ks` in order of first appearance. */
  function FirstSeen(ks: seq<string>): seq<string> {
    if ks == [] then []
    else
      var seen := FirstSeen(ks[..|ks| - 1]);
      if ks[|ks| - 1] in seen then seen else seen + [ks[|ks| - 1]]
  }

  /** The Map's keys in insertion order. */
  function GroupKeys(songs: seq<LabelledSong>): seq<string> {
    FirstSeen(KeyColumn(songs))
  }

  /** The Map `songsByLabel` after the songs of `songs` were pushed. */
  function GroupMap(songs: seq<LabelledSong>): map<string, seq<LabelledSong>> {
    if songs == [] then map[]
    else
      var m := GroupMap(songs[..|songs| - 1]);
      var song := songs[|songs| - 1];
      var k := GroupKey(song);
      m[k := (if k in m then m[k] else []) + [song]]
  }

  /** The songs whose key is `k`, in input order. */
  function GroupOf(songs: seq<LabelledSong>, k: string): seq<LabelledSong> {
    if songs == [] then []
    else
      var song := songs[|songs| - 1];
      GroupOf(songs[..|songs| - 1], k) + (if GroupKey(song) == k then [song] else [])
  }

  /** The records pushed for the group of key `k`: its songs sorted by number, each with its final number. */
  function GroupResult(songs: seq<LabelledSong>, k: string): seq<ResolvedSong> {
    Allocation.NumberGroup(StableSort.SortByNumber(GroupOf(songs, k)))
  }

  /** The sequences of `gs`, one after another. */
  function Concat<T>(gs: seq<seq<T>>): seq<T> {
    if gs == [] then [] else Concat(gs[..|gs| - 1]) + gs[|gs| - 1]
  }

  /** Which sequence of `gs`, and which position in it, position `i` of `Concat(gs)` comes from. */
  function Locate<T>(gs: seq<seq<T>>, i: int): (int, int)
    requires 0 <= i < |Concat(gs)|
  {
    var p := gs[..|gs| - 1];
    if i < |Concat(p)| then Locate(p, i) else (|gs| - 1, i - |Concat(p)|)
  }

  lemma {:induction false} LocateSpec<T>(gs: seq<seq<T>>, i: int)
    requires 0 <= i < |Concat(gs)|
    ensures var (q, t) := Locate(gs, i);
      0 <= q < |gs| && 0 <= t < |gs[q]| && Concat(gs)[i] == gs[q][t]
  {
    var p := gs[..|gs| - 1];
    assert Concat(gs) == Concat(p) + gs[|gs| - 1];
    if i < |Concat(p)| {
      LocateSpec(p, i);
    }
  }

  /** Later positions of `Concat(gs)` come from later sequences, or from later positions of the same one. */
  lemma {:induction false} LocateMonotone<T>(gs: seq<seq<T>>, i: int, j: int)
    requires 0 <= i < j < |Concat(gs)|
    ensures var (q1, t1) := Locate(gs, i);
      var (q2, t2) := Locate(gs, j);
      q1 < q2 || (q1 == q2 && t1 < t2)
  {
    var p := gs[..|gs| - 1];
    assert Concat(gs) == Concat(p) + gs[|gs| - 1];
    if j < |Concat(p)| {
      LocateMonotone(p, i, j);
    } else if i < |Concat(p)| {
      LocateSpec(p, i);
    }
  }

  /** The records of every group `keys[q]`, group by group. */
  function Groups(songs: seq<LabelledSong>, keys: seq<string>): (gs: seq<seq<ResolvedSong>>)
    ensures |gs| == |keys|
  {
    seq(|keys|, q requires 0 <= q < |keys| => GroupResult(songs, keys[q]))
  }

  /** The records pushed for the groups `keys`, one group after another. */
  function ResolveGroups(songs: seq<LabelledSong>, keys: seq<string>): seq<ResolvedSong> {
    Concat(Groups(songs, keys))
  }

  /** One more group appends its records. */
  lemma ResolveGroupsSnoc(songs: seq<LabelledSong>, keys: seq<string>, j: int)
    requires 0 <= j < |keys|
    ensures ResolveGroups(songs, keys[..j + 1]) == ResolveGroups(songs, keys[..j]) + GroupResult(songs, keys[j])
  {
    var gs := Groups(songs, keys[..j + 1]);
    assert gs[..j] == Groups(songs, keys[..j]);
    assert gs[j] == GroupResult(songs, keys[j]);
  }

  /** The output of `resolveSongNumberConflicts(songs)`. */
  function ResolveSongNumbers(songs: seq<LabelledSong>): seq<ResolvedSong> {
    ResolveGroups(songs, GroupKeys(songs))
  }

  lemma {:induction false} GroupMapSpec(songs: seq<LabelledSong>, k: string)
    ensures k in GroupMap(songs) <==> k in GroupKeys(songs)
    ensures k in GroupMap(songs) ==> GroupMap(songs)[k] == GroupOf(songs, k)
    ensures k !in GroupKeys(songs) ==> GroupOf(songs, k) == []
  {
    if songs != [] {
      var p, song := songs[..|songs| - 1], songs[|songs| - 1];
      GroupMapSpec(p, k);
      if GroupKey(song) == k {
        assert GroupOf(songs, k) == GroupOf(p, k) + [song];
      } else {
        assert GroupOf(songs, k) == GroupOf(p, k) + [];
      }
    }
  }

  /** Pushing `songs[i]`: its key gains the song, and joins the keys when it is new. */
  lemma GroupByLabelStep(songs: seq<LabelledSong>, i: int)
    requires 0 <= i < |songs|
    ensures var m, k := GroupMap(songs[..i]), GroupKey(songs[i]);
      && GroupMap(songs[..i + 1]) == m[k := (if k in m then m[k] else []) + [songs[i]]]
      && GroupKeys(songs[..i + 1]) == if k in m then GroupKeys(songs[..i]) else GroupKeys(songs[..i]) + [k]
  {
    var p := songs[..i];
    assert songs[..i + 1] == p + [songs[i]];
    assert (p + [songs[i]])[..i] == p;
    GroupMapSpec(p, GroupKey(songs[i]));
    GroupKeysSnoc(p, songs[i]);
  }

  /**
    The first `forEach` of `resolveSongNumberConflicts`: push every song onto
    the array of its key.  `labelKeys` lists the Map's keys in insertion order.
   */
  method GroupByLabel(songs: seq<LabelledSong>)
    returns (songsByLabel: map<string, seq<LabelledSong>>, labelKeys: seq<string>)
    ensures songsByLabel == GroupMap(songs)
    ensures labelKeys == GroupKeys(songs)
  {
    songsByLabel := map[];
    labelKeys := [];
    for i := 0 to |songs|
      invariant songsByLabel == GroupMap(songs[..i])
      invariant labelKeys == GroupKeys(songs[..i])
    {
      var song := songs[i];
      var labelKey := GroupKey(song);
      GroupByLabelStep(songs, i);
      if labelKey !in songsByLabel {
        songsByLabel := songsByLabel[labelKey := []];
        labelKeys := labelKeys + [labelKey];
      }
      songsByLabel := songsByLabel[labelKey := songsByLabel[labelKey] + [song]];
    }
    assert songs[..|songs|] == songs;
  }

  /** `resolveSongNumberConflicts(songs)` */
  method ResolveSongNumberConflicts(songs: seq<LabelledSong>) returns (result: seq<ResolvedSong>)
    ensures result == ResolveSongNumbers(songs)
  {
    var songsByLabel, labelKeys := GroupByLabel(songs);
    result := [];
    for j := 0 to |labelKeys|
      invariant result == ResolveGroups(songs, labelKeys[..j])
    {
      var labelKey := labelKeys[j];
      GroupMapSpec(songs, labelKey);
      var labelSongs := StableSort.SortByNumber(songsByLabel[labelKey]);
      var pushed := Allocation.NumberLabelGroup(labelSongs);
      ResolveGroupsSnoc(songs, labelKeys, j);
      result := result + pushed;
    }
    assert labelKeys[..|labelKeys|] == labelKeys;
  }

  /** The songs of a pass-2 output, without their final numbers. */
  function Labelled(r: seq<ResolvedSong>): (s: seq<LabelledSong>)
    ensures |s| == |r|
  {
    seq(|r|, i requires 0 <= i < |r| => r[i].labelled)
  }

  lemma {:induction false} GroupOfMembers(songs: seq<LabelledSong>, k: string, x: LabelledSong)
    ensures x in GroupOf(songs, k) <==> x in songs && GroupKey(x) == k
  {
    if songs != [] {
      var p := songs[..|songs| - 1];
      GroupOfMembers(p, k, x);
      assert songs == p + [songs[|songs| - 1]];
    }
  }

  /** `FirstSeen(ks)` lists exactly the entries of `ks`. */
  lemma {:induction false} FirstSeenCover(ks: seq<string>)
    ensures forall k :: k in FirstSeen(ks) <==> k in ks
  {
    if ks != [] {
      var p := ks[..|ks| - 1];
      FirstSeenCover(p);
      assert ks == p + [ks[|ks| - 1]];
    }
  }

  /** No entry of `keys` occurs twice. */
  predicate Distinct(keys: seq<string>) {
    forall a, b :: 0 <= a < b < |keys| ==> keys[a] != keys[b]
  }

  lemma DistinctLast(keys: seq<string>)
    requires Distinct(keys) && keys != []
    ensures Distinct(keys[..|keys| - 1]) && keys[|keys| - 1] !in keys[..|keys| - 1]
  {
    var p := keys[..|keys| - 1];
    forall a, b | 0 <= a < b < |p| ensures p[a] != p[b] {
      assert p[a] == keys[a] && p[b] == keys[b];
    }
    forall a | 0 <= a < |p| ensures p[a] != keys[|keys| - 1] {
      assert p[a] == keys[a];
    }
  }

  /** `FirstSeen(ks)` lists each entry once. */
  lemma {:induction false} FirstSeenDistinct(ks: seq<string>)
    ensures Distinct(FirstSeen(ks))
  {
    if ks != [] {
      FirstSeenDistinct(ks[..|ks| - 1]);
    }
  }

  /** An entry listed before another by `FirstSeen(ks)` occurs in `ks` before every occurrence of the other. */
  lemma {:induction false} FirstSeenOrder(ks: seq<string>)
    ensures forall a, b, j :: 0 <= a < b < |FirstSeen(ks)| && 0 <= j < |ks| && ks[j] == FirstSeen(ks)[b] ==>
      FirstSeen(ks)[a] in ks[..j]
  {
    if ks != [] {
      var n := |ks| - 1;
      var p := ks[..n];
      FirstSeenOrder(p);
      FirstSeenCover(p);
      var seen, f := FirstSeen(p), FirstSeen(ks);
      forall a, b, j | 0 <= a < b < |f| && 0 <= j < |ks| && ks[j] == f[b]
        ensures f[a] in ks[..j]
      {
        if j < n {
          assert ks[j] == p[j] && p[j] in seen;
          assert b < |seen|;
          assert p[..j] == ks[..j];
        } else if b < |seen| {
          assert f[b] in p;
          var i :| 0 <= i < |p| && p[i] == f[b];
          assert f[a] in p[..i];
          assert p[..i] == ks[..i] && ks[..i] <= ks[..j];
        } else {
          assert f[a] in seen && f[a] in p;
          assert p == ks[..j];
        }
      }
    }
  }

  /** The Map's keys are exactly the keys of the songs. */
  lemma GroupKeysCover(songs: seq<LabelledSong>)
    ensures forall i :: 0 <= i < |songs| ==> GroupKey(songs[i]) in GroupKeys(songs)
    ensures forall k :: k in GroupKeys(songs) ==> exists i :: 0 <= i < |songs| && GroupKey(songs[i]) == k
  {
    var ks := KeyColumn(songs);
    KeyColumnAt(songs);
    FirstSeenCover(ks);
    forall i | 0 <= i < |songs| ensures GroupKey(songs[i]) in GroupKeys(songs) {
      assert ks[i] in ks;
    }
    forall k | k in GroupKeys(songs) ensures exists i :: 0 <= i < |songs| && GroupKey(songs[i]) == k {
      assert k in ks;
      var i :| 0 <= i < |ks| && ks[i] == k;
    }
  }

  /** The Map's keys are listed once each. */
  lemma GroupKeysDistinct(songs: seq<LabelledSong>)
    ensures Distinct(GroupKeys(songs))
  {
    FirstSeenDistinct(KeyColumn(songs));
  }

  /** Some song before position `j` has key `k`. */
  predicate SeenBefore(songs: seq<LabelledSong>, k: string, j: int)
    requires j <= |songs|
  {
    exists i :: 0 <= i < j && GroupKey(songs[i]) == k
  }

  lemma GroupKeysOrderAt(songs: seq<LabelledSong>, a: int, b: int, j: int)
    requires 0 <= a < b < |GroupKeys(songs)| && 0 <= j < |songs| && GroupKey(songs[j]) == GroupKeys(songs)[b]
    ensures SeenBefore(songs, GroupKeys(songs)[a], j)
  {
    var ks := KeyColumn(songs);
    KeyColumnAt(songs);
    FirstSeenOrder(ks);
    assert ks[j] == FirstSeen(ks)[b];
    assert FirstSeen(ks)[a] in ks[..j];
    var i :| 0 <= i < j && ks[..j][i] == FirstSeen(ks)[a];
    assert ks[..j][i] == ks[i] == GroupKey(songs[i]);
  }

  /** A key listed before another first appears in `songs` before the other does. */
  lemma GroupKeysOrder(songs: seq<LabelledSong>)
    ensures forall a, b, j :: 0 <= a < b < |GroupKeys(songs)| && 0 <= j < |songs| && GroupKey(songs[j]) == GroupKeys(songs)[b] ==>
      SeenBefore(songs, GroupKeys(songs)[a], j)
  {
    forall a, b, j | 0 <= a < b < |GroupKeys(songs)| && 0 <= j < |songs| && GroupKey(songs[j]) == GroupKeys(songs)[b]
      ensures SeenBefore(songs, GroupKeys(songs)[a], j)
    {
      GroupKeysOrderAt(songs, a, b, j);
    }
  }

  /** The number of decimal digits at the end of `s`. */
  function TrailingDigits(s: string): (n: nat)
    ensures n <= |s|
  {
    if s == [] || !Decimal.IsDigit(s[|s| - 1]) then 0 else TrailingDigits(s[..|s| - 1]) + 1
  }

  lemma {:induction false} TrailingDigitsAll(s: string)
    ensures Decimal.AllDigits(s[|s| - TrailingDigits(s)..])
  {
    if s != [] && Decimal.IsDigit(s[|s| - 1]) {
      var p := s[..|s| - 1];
      TrailingDigitsAll(p);
      var n := TrailingDigits(p);
      assert s[|s| - (n + 1)..] == p[|p| - n..] + [s[|s| - 1]];
    }
  }

  lemma {:induction false} TrailingDigitsAppend(p: string, d: string)
    requires Decimal.AllDigits(d)
    requires p == [] || !Decimal.IsDigit(p[|p| - 1])
    ensures TrailingDigits(p + d) == |d|
  {
    if d == [] {
      assert p + d == p;
    } else {
      var c := d[..|d| - 1];
      assert (p + d)[..|p + d| - 1] == p + c;
      TrailingDigitsAppend(p, c);
    }
  }

  /** Reads a Map key back into the slug and the label id it was built from. */
  function DecodeKey(key: string): (string, int) {
    var n := TrailingDigits(key);
    TrailingDigitsAll(key);
    DecodeRest(key[..|key| - n], Decimal.ParseNat(key[|key| - n..]))
  }

  /** Reads the text before the digits `v`: the slug, then `-` or `--` for a negative id. */
  function DecodeRest(rest: string, v: nat): (string, int) {
    if |rest| >= 2 && rest[|rest| - 2] == '-' then (rest[..|rest| - 2], -(v as int))
    else if rest != [] then (rest[..|rest| - 1], v)
    else ([], v)
  }

  /** Text that does not end in a digit, followed by digits, splits back at the digits. */
  lemma DecodeKeySplit(rest: string, d: string)
    requires Decimal.AllDigits(d)
    requires rest == [] || !Decimal.IsDigit(rest[|rest| - 1])
    ensures DecodeKey(rest + d) == DecodeRest(rest, Decimal.ParseNat(d))
  {
    var key := rest + d;
    TrailingDigitsAppend(rest, d);
    assert key[|key| - |d|..] == d;
    assert key[..|key| - |d|] == rest;
  }

  lemma DecodeRestPositive(slug: string, v: nat)
    requires slug == [] || slug[|slug| - 1] != '-'
    ensures DecodeRest(slug + "-", v) == (slug, v)
  {
    var rest := slug + "-";
    if slug != [] {
      assert rest[|rest| - 2] == slug[|slug| - 1];
    }
    assert rest[..|rest| - 1] == slug;
  }

  lemma DecodeRestNegative(slug: string, v: nat)
    ensures DecodeRest(slug + "--", v) == (slug, -(v as int))
  {
    var rest := slug + "--";
    assert rest[..|rest| - 2] == slug;
  }

  /** The key of a song is its slug, `-`, and the text of its label id. */
  lemma GroupKeyParts(x: LabelledSong)
    ensures x.song.labelId >= 0 ==>
      GroupKey(x) == (x.normalizedLabel + "-") + Decimal.NatToString(x.song.labelId)
    ensures x.song.labelId < 0 ==>
      GroupKey(x) == (x.normalizedLabel + "--") + Decimal.NatToString(-x.song.labelId)
  {
    if x.song.labelId < 0 {
      var slug, d := x.normalizedLabel, Decimal.NatToString(-x.song.labelId);
      assert slug + "-" + ("-" + d) == (slug + "--") + d;
    }
  }

  lemma DecodePositiveKey(slug: string, id: nat)
    requires slug == [] || slug[|slug| - 1] != '-'
    ensures DecodeKey((slug + "-") + Decimal.NatToString(id)) == (slug, id)
  {
    Decimal.ParseNatToString(id);
    DecodeKeySplit(slug + "-", Decimal.NatToString(id));
    DecodeRestPositive(slug, id);
  }

  lemma DecodeNegativeKey(slug: string, id: nat)
    ensures DecodeKey((slug + "--") + Decimal.NatToString(id)) == (slug, -(id as int))
  {
    Decimal.ParseNatToString(id);
    DecodeKeySplit(slug + "--", Decimal.NatToString(id));
    DecodeRestNegative(slug, id);
  }

  /** A slug never ends in `-`, so its key can be read back. */
  lemma DecodeGroupKey(x: LabelledSong)
    requires Slug.IsSlug(x.normalizedLabel)
    ensures DecodeKey(GroupKey(x)) == (x.normalizedLabel, x.song.labelId)
  {
    GroupKeyParts(x);
    if x.song.labelId >= 0 {
      DecodePositiveKey(x.normalizedLabel, x.song.labelId);
    } else {
      DecodeNegativeKey(x.normalizedLabel, -x.song.labelId);
    }
  }

  /**
    The string key is injective on slug-shaped labels: two songs share a key
    exactly when they share both the slug and the label id.
   */
  lemma GroupKeyInjective(x: LabelledSong, y: LabelledSong)
    requires Slug.IsSlug(x.normalizedLabel) && Slug.IsSlug(y.normalizedLabel)
    ensures GroupKey(x) == GroupKey(y) <==>
      x.normalizedLabel == y.normalizedLabel && x.song.labelId == y.song.labelId
  {
    DecodeGroupKey(x);
    DecodeGroupKey(y);
  }

  /** Without the slug shape the key would be ambiguous: `a-` with id 1 and `a` with id -1 both give `a--1`. */
  lemma KeyNeedsSlugShape(x: LabelledSong, y: LabelledSong)
    requires x.normalizedLabel == "a-" && x.song.labelId == 1
    requires y.normalizedLabel == "a" && y.song.labelId == -1
    ensures GroupKey(x) == GroupKey(y)
  {
    assert Decimal.IntToString(1) == "1";
    assert Decimal.IntToString(-1) == "-1";
  }

  /** The songs of the groups `keys`, counted with repetition. */
  function GroupsMultiset(songs: seq<LabelledSong>, keys: seq<string>): multiset<LabelledSong> {
    if keys == [] then multiset{}
    else GroupsMultiset(songs, keys[..|keys| - 1]) + multiset(GroupOf(songs, keys[|keys| - 1]))
  }

  lemma LabelledNumberGroup(sorted: seq<LabelledSong>)
    ensures Labelled(Allocation.NumberGroup(sorted)) == sorted
  {
    Allocation.NumberGroupSpec(sorted);
  }

  lemma {:induction false} ResolveGroupsMultiset(songs: seq<LabelledSong>, keys: seq<string>)
    ensures multiset(Labelled(ResolveGroups(songs, keys))) == GroupsMultiset(songs, keys)
  {
    if keys != [] {
      var m := |keys| - 1;
      var p, k := keys[..m], keys[m];
      ResolveGroupsMultiset(songs, p);
      var group := GroupOf(songs, k);
      var sorted := StableSort.SortByNumber(group);
      StableSort.SortByNumberMultiset(group);
      assert keys[..m + 1] == keys;
      ResolveGroupsSnoc(songs, keys, m);
      var a, g := ResolveGroups(songs, p), GroupResult(songs, k);
      LabelledNumberGroup(sorted);
      LabelledAppend(a, g);
      assert multiset(Labelled(a) + sorted) == multiset(Labelled(a)) + multiset(sorted);
    }
  }

  lemma LabelledAppend(a: seq<ResolvedSong>, b: seq<ResolvedSong>)
    ensures Labelled(a + b) == Labelled(a) + Labelled(b)
  {
  }

  /** Pushing `x` onto the songs adds `x` to its own group and to no other. */
  lemma GroupOfSnoc(songs: seq<LabelledSong>, x: LabelledSong, k: string)
    ensures multiset(GroupOf(songs + [x], k)) ==
      multiset(GroupOf(songs, k)) + (if GroupKey(x) == k then multiset{x} else multiset{})
  {
    assert (songs + [x])[..|songs|] == songs;
  }

  lemma InSnoc<T>(s: seq<T>, v: T)
    requires s != []
    ensures v in s <==> v in s[..|s| - 1] || v == s[|s| - 1]
  {
    assert s == s[..|s| - 1] + [s[|s| - 1]];
  }

  lemma {:induction false} GroupsMultisetSnoc(songs: seq<LabelledSong>, x: LabelledSong, keys: seq<string>)
    requires Distinct(keys)
    ensures GroupsMultiset(songs + [x], keys) ==
      GroupsMultiset(songs, keys) + (if GroupKey(x) in keys then multiset{x} else multiset{})
  {
    if keys != [] {
      var p, k := keys[..|keys| - 1], keys[|keys| - 1];
      DistinctLast(keys);
      GroupsMultisetSnoc(songs, x, p);
      GroupOfSnoc(songs, x, k);
      InSnoc(keys, GroupKey(x));
      assert GroupsMultiset(songs + [x], keys) ==
        GroupsMultiset(songs + [x], p) + multiset(GroupOf(songs + [x], k));
      assert GroupsMultiset(songs, keys) == GroupsMultiset(songs, p) + multiset(GroupOf(songs, k));
      AddOnce(GroupsMultiset(songs + [x], p), multiset(GroupOf(songs + [x], k)),
        GroupsMultiset(songs, p), multiset(GroupOf(songs, k)), x, GroupKey(x) in p, GroupKey(x) == k);
    }
  }

  /** Adding `x` on at most one of two sides adds it once to the sum. */
  lemma AddOnce<T>(a: multiset<T>, b: multiset<T>, c: multiset<T>, d: multiset<T>, x: T, inA: bool, inB: bool)
    requires !(inA && inB)
    requires a == c + (if inA then multiset{x} else multiset{})
    requires b == d + (if inB then multiset{x} else multiset{})
    ensures a + b == c + d + (if inA || inB then multiset{x} else multiset{})
  {
  }

  /** Pushing `x` adds its key to the Map's keys unless it is already there. */
  lemma GroupKeysSnoc(p: seq<LabelledSong>, x: LabelledSong)
    ensures GroupKeys(p + [x]) ==
      if GroupKey(x) in GroupKeys(p) then GroupKeys(p) else GroupKeys(p) + [GroupKey(x)]
  {
    assert (p + [x])[..|p|] == p;
    var ks := KeyColumn(p + [x]);
    assert ks == KeyColumn(p) + [GroupKey(x)];
    assert ks[..|ks| - 1] == KeyColumn(p);
  }

  lemma {:induction false} GroupsMultisetAll(songs: seq<LabelledSong>)
    ensures GroupsMultiset(songs, GroupKeys(songs)) == multiset(songs)
  {
    if songs != [] {
      var p, x := songs[..|songs| - 1], songs[|songs| - 1];
      assert songs == p + [x];
      GroupsMultisetAll(p);
      var keys, kx := GroupKeys(p), GroupKey(x);
      GroupKeysDistinct(p);
      GroupsMultisetSnoc(p, x, keys);
      GroupKeysSnoc(p, x);
      if kx !in keys {
        GroupMapSpec(p, kx);
        var all := keys + [kx];
        assert all[..|keys|] == keys;
        assert GroupsMultiset(songs, all) == GroupsMultiset(songs, keys) + multiset(GroupOf(songs, kx));
        GroupOfSnoc(p, x, kx);
      }
    }
  }

  /** Pass 2 outputs every input song exactly as often as it was given, each with a final number. */
  lemma ResolveSongNumbersPermutation(songs: seq<LabelledSong>)
    ensures multiset(Labelled(ResolveSongNumbers(songs))) == multiset(songs)
  {
    ResolveGroupsMultiset(songs, GroupKeys(songs));
    GroupsMultisetAll(songs);
  }

  /** Every record of a group has the group's key, a song of `songs` and a final number of at least 1. */
  lemma GroupRecordAt(songs: seq<LabelledSong>, k: string, t: int)
    requires 0 <= t < |GroupResult(songs, k)|
    ensures GroupKey(GroupResult(songs, k)[t].labelled) == k
    ensures GroupResult(songs, k)[t].labelled in songs
    ensures GroupResult(songs, k)[t].finalSongNumber >= 1
  {
    var group := GroupOf(songs, k);
    var sorted := StableSort.SortByNumber(group);
    StableSort.SortByNumberMultiset(group);
    Allocation.NumberGroupSpec(sorted);
    assert GroupResult(songs, k)[t].labelled == sorted[t];
    assert sorted[t] in multiset(sorted);
    GroupOfMembers(songs, k, sorted[t]);
  }

  /** Within a group the song numbers ascend and the final numbers differ. */
  lemma GroupRecordsOrderAt(songs: seq<LabelledSong>, k: string, t: int, u: int)
    requires 0 <= t < u < |GroupResult(songs, k)|
    ensures GroupResult(songs, k)[t].finalSongNumber != GroupResult(songs, k)[u].finalSongNumber
    ensures StableSort.Number(GroupResult(songs, k)[t].labelled) <= StableSort.Number(GroupResult(songs, k)[u].labelled)
  {
    var group := GroupOf(songs, k);
    var sorted := StableSort.SortByNumber(group);
    StableSort.SortByNumberSpec(group);
    Allocation.NumberGroupSpec(sorted);
    assert GroupResult(songs, k)[t].labelled == sorted[t];
    assert GroupResult(songs, k)[u].labelled == sorted[u];
  }

  /** The position of the last occurrence of `k` in `keys`, or -1. */
  function Rank(keys: seq<string>, k: string): int {
    if keys == [] then -1
    else if keys[|keys| - 1] == k then |keys| - 1
    else Rank(keys[..|keys| - 1], k)
  }

  lemma {:induction false} RankIn(keys: seq<string>, k: string)
    requires k in keys
    ensures 0 <= Rank(keys, k) < |keys| && keys[Rank(keys, k)] == k
  {
    var n := |keys| - 1;
    if keys[n] != k {
      var p := keys[..n];
      assert keys == p + [keys[n]];
      RankIn(p, k);
    }
  }

  /** Every record of the groups `keys` belongs to one of them, holds a song of `songs` and a final number of at least 1. */
  lemma ResolveGroupsMember(songs: seq<LabelledSong>, keys: seq<string>, i: int)
    requires 0 <= i < |ResolveGroups(songs, keys)|
    ensures var x := ResolveGroups(songs, keys)[i];
      GroupKey(x.labelled) in keys && x.finalSongNumber >= 1 && x.labelled in songs
  {
    var gs := Groups(songs, keys);
    LocateSpec(gs, i);
    var (q, t) := Locate(gs, i);
    assert ResolveGroups(songs, keys)[i] == GroupResult(songs, keys[q])[t];
    GroupRecordAt(songs, keys[q], t);
  }

  /**
    How a record `x` pushed before a record `y` relates to it: the group of
    `x` is listed no later than that of `y`, and within one group the final
    numbers differ and the song numbers ascend.
   */
  predicate GroupOrdered(keys: seq<string>, x: ResolvedSong, y: ResolvedSong) {
    && Rank(keys, GroupKey(x.labelled)) <= Rank(keys, GroupKey(y.labelled))
    && (GroupKey(x.labelled) == GroupKey(y.labelled) ==>
          && x.finalSongNumber != y.finalSongNumber
          && StableSort.Number(x.labelled) <= StableSort.Number(y.labelled))
  }

  lemma {:induction false} RankAt(keys: seq<string>, q: int)
    requires Distinct(keys) && 0 <= q < |keys|
    ensures Rank(keys, keys[q]) == q
  {
    var n := |keys| - 1;
    if q < n {
      var p := keys[..n];
      DistinctLast(keys);
      assert p[q] == keys[q];
      RankAt(p, q);
    }
  }

  /** Any two records `i < j` of the groups `keys` are ordered. */
  lemma ResolveGroupsOrder(songs: seq<LabelledSong>, keys: seq<string>, i: int, j: int)
    requires Distinct(keys)
    requires 0 <= i < j < |ResolveGroups(songs, keys)|
    ensures GroupOrdered(keys, ResolveGroups(songs, keys)[i], ResolveGroups(songs, keys)[j])
  {
    var x, y := ResolveGroups(songs, keys)[i], ResolveGroups(songs, keys)[j];
    var gs := Groups(songs, keys);
    LocateSpec(gs, i);
    LocateSpec(gs, j);
    LocateMonotone(gs, i, j);
    var (q1, t1) := Locate(gs, i);
    var (q2, t2) := Locate(gs, j);
    assert x == GroupResult(songs, keys[q1])[t1];
    assert y == GroupResult(songs, keys[q2])[t2];
    GroupRecordAt(songs, keys[q1], t1);
    GroupRecordAt(songs, keys[q2], t2);
    RankAt(keys, q1);
    RankAt(keys, q2);
    if q1 == q2 {
      GroupRecordsOrderAt(songs, keys[q1], t1, t2);
    }
  }

  /** Pass 2 outputs one record per input song. */
  lemma ResolveSongNumbersLength(songs: seq<LabelledSong>)
    ensures |ResolveSongNumbers(songs)| == |songs|
  {
    ResolveSongNumbersPermutation(songs);
    assert |multiset(Labelled(ResolveSongNumbers(songs)))| == |multiset(songs)|;
  }

  /**
    Pass 2's promise about its output `r`: every final number is at least 1;
    two records of one `(slug, id)` key have different final numbers and come
    in ascending song-number order; the records of different keys come in the
    order in which the Map lists their keys.
   */
  lemma ResolveSongNumbersSpec(songs: seq<LabelledSong>)
    ensures var r, keys := ResolveSongNumbers(songs), GroupKeys(songs);
      && (forall i :: 0 <= i < |r| ==> r[i].finalSongNumber >= 1)
      && (forall i, j :: 0 <= i < j < |r| && GroupKey(r[i].labelled) == GroupKey(r[j].labelled) ==>
            && r[i].finalSongNumber != r[j].finalSongNumber
            && StableSort.Number(r[i].labelled) <= StableSort.Number(r[j].labelled))
      && (forall i, j :: 0 <= i < j < |r| && GroupKey(r[i].labelled) != GroupKey(r[j].labelled) ==>
            Rank(keys, GroupKey(r[i].labelled)) < Rank(keys, GroupKey(r[j].labelled)))
  {
    var r, keys := ResolveSongNumbers(songs), GroupKeys(songs);
    forall i | 0 <= i < |r| ensures r[i].finalSongNumber >= 1 {
      ResolveGroupsMember(songs, keys, i);
    }
    forall i, j | 0 <= i < j < |r|
      ensures GroupOrdered(keys, r[i], r[j])
      ensures GroupKey(r[i].labelled) != GroupKey(r[j].labelled) ==>
        Rank(keys, GroupKey(r[i].labelled)) != Rank(keys, GroupKey(r[j].labelled))
    {
      ResolveSongNumbersPair(songs, i, j);
    }
  }

  lemma ResolveSongNumbersPair(songs: seq<LabelledSong>, i: int, j: int)
    requires 0 <= i < j < |ResolveSongNumbers(songs)|
    ensures GroupOrdered(GroupKeys(songs), ResolveSongNumbers(songs)[i], ResolveSongNumbers(songs)[j])
    ensures var ki, kj := GroupKey(ResolveSongNumbers(songs)[i].labelled), GroupKey(ResolveSongNumbers(songs)[j].labelled);
      ki != kj ==> Rank(GroupKeys(songs), ki) != Rank(GroupKeys(songs), kj)
  {
    var r, keys := ResolveSongNumbers(songs), GroupKeys(songs);
    GroupKeysDistinct(songs);
    ResolveGroupsOrder(songs, keys, i, j);
    ResolveGroupsMember(songs, keys, i);
    ResolveGroupsMember(songs, keys, j);
    RankIn(keys, GroupKey(r[i].labelled));
    RankIn(keys, GroupKey(r[j].labelled));
  }

  /**
    Groups come out in order of first appearance: when record `i` precedes
    record `j` of another key, every input song with `j`'s key is preceded in
    the input by a song with `i`'s key.
   */
  lemma FirstAppearanceOrder(songs: seq<LabelledSong>, i: int, j: int, t: int)
    requires 0 <= i < j < |ResolveSongNumbers(songs)| && 0 <= t < |songs|
    requires GroupKey(ResolveSongNumbers(songs)[i].labelled) != GroupKey(ResolveSongNumbers(songs)[j].labelled)
    requires GroupKey(songs[t]) == GroupKey(ResolveSongNumbers(songs)[j].labelled)
    ensures SeenBefore(songs, GroupKey(ResolveSongNumbers(songs)[i].labelled), t)
  {
    var r, keys := ResolveSongNumbers(songs), GroupKeys(songs);
    ResolveSongNumbersSpec(songs);
    ResolveGroupsMember(songs, keys, i);
    ResolveGroupsMember(songs, keys, j);
    var ki, kj := GroupKey(r[i].labelled), GroupKey(r[j].labelled);
    RankIn(keys, ki);
    RankIn(keys, kj);
    GroupKeysOrderAt(songs, Rank(keys, ki), Rank(keys, kj), t);
  }

  /**
    Every requested song number is at least 1, and no two songs of one key
    request the same number.
   */
  predicate RequestsValid(songs: seq<LabelledSong>) {
    && (forall i :: 0 <= i < |songs| ==> StableSort.Number(songs[i]) >= 1)
    && (forall i, j :: 0 <= i < j < |songs| && GroupKey(songs[i]) == GroupKey(songs[j]) ==>
          StableSort.Number(songs[i]) != StableSort.Number(songs[j]))
  }

  lemma {:induction false} GroupOfDistinct(songs: seq<LabelledSong>, k: string)
    requires RequestsValid(songs)
    ensures StableSort.DistinctNumbers(GroupOf(songs, k))
  {
    if songs != [] {
      var n := |songs| - 1;
      var p, x := songs[..n], songs[n];
      assert RequestsValid(p) by {
        assert forall i :: 0 <= i < |p| ==> p[i] == songs[i];
      }
      GroupOfDistinct(p, k);
      if GroupKey(x) == k {
        var q := GroupOf(p, k);
        assert GroupOf(songs, k) == q + [x];
        forall i, j | 0 <= i < j < |q + [x]|
          ensures StableSort.Number((q + [x])[i]) != StableSort.Number((q + [x])[j])
        {
          assert (q + [x])[i] == q[i];
          if j == |q| {
            GroupOfMembers(p, k, q[i]);
            var t :| 0 <= t < |p| && p[t] == q[i];
            assert songs[t] == q[i];
          } else {
            assert (q + [x])[j] == q[j];
          }
        }
      } else {
        assert GroupOf(songs, k) == GroupOf(p, k) + [];
      }
    }
  }

  /** With valid requests every record of a group keeps its requested number. */
  lemma GroupResultKeep(songs: seq<LabelledSong>, k: string, t: int)
    requires RequestsValid(songs)
    requires 0 <= t < |GroupResult(songs, k)|
    ensures GroupResult(songs, k)[t].finalSongNumber == StableSort.Number(GroupResult(songs, k)[t].labelled)
  {
    var group := GroupOf(songs, k);
    var sorted := StableSort.SortByNumber(group);
    StableSort.SortByNumberMultiset(group);
    GroupOfDistinct(songs, k);
    StableSort.SortDistinct(group);
    forall u | 0 <= u < |sorted| ensures StableSort.Number(sorted[u]) >= 1 {
      assert sorted[u] in multiset(sorted);
      GroupOfMembers(songs, k, sorted[u]);
    }
    Allocation.NumberGroupKeep(sorted);
    Allocation.NumberGroupSpec(sorted);
  }

  lemma ResolveGroupsKeep(songs: seq<LabelledSong>, keys: seq<string>, i: int)
    requires RequestsValid(songs)
    requires 0 <= i < |ResolveGroups(songs, keys)|
    ensures ResolveGroups(songs, keys)[i].finalSongNumber == StableSort.Number(ResolveGroups(songs, keys)[i].labelled)
  {
    var gs := Groups(songs, keys);
    LocateSpec(gs, i);
    var (q, t) := Locate(gs, i);
    assert ResolveGroups(songs, keys)[i] == GroupResult(songs, keys[q])[t];
    GroupResultKeep(songs, keys[q], t);
  }

  /**
    When every requested number is at least 1 and no two songs of one key
    request the same number, pass 2 keeps every requested number.
   */
  lemma ResolveSongNumbersKeep(songs: seq<LabelledSong>)
    requires RequestsValid(songs)
    ensures forall i :: 0 <= i < |ResolveSongNumbers(songs)| ==>
      ResolveSongNumbers(songs)[i].finalSongNumber == ResolveSongNumbers(songs)[i].labelled.song.songNumber
  {
    forall i | 0 <= i < |ResolveSongNumbers(songs)|
      ensures ResolveSongNumbers(songs)[i].finalSongNumber == ResolveSongNumbers(songs)[i].labelled.song.songNumber
    {
      ResolveGroupsKeep(songs, GroupKeys(songs), i);
    }
  }

  /** No two records of the output share label slug, label id and final song number. */
  lemma ResolvedTriplesUnique(songs: seq<LabelledSong>)
    ensures var r := ResolveSongNumbers(songs);
      forall i, j :: (0 <= i < j < |r| &&
        r[i].labelled.normalizedLabel == r[j].labelled.normalizedLabel &&
        r[i].labelled.song.labelId == r[j].labelled.song.labelId) ==>
        r[i].finalSongNumber != r[j].finalSongNumber
  {
    ResolveSongNumbersSpec(songs);
  }

  /** With slug-shaped labels a group holds exactly the songs of one slug and one label id. */
  lemma GroupOfLabel(songs: seq<LabelledSong>, x: LabelledSong, y: LabelledSong)
    requires forall i :: 0 <= i < |songs| ==> Slug.IsSlug(songs[i].normalizedLabel)
    requires Slug.IsSlug(x.normalizedLabel)
    ensures y in GroupOf(songs, GroupKey(x)) <==>
      y in songs && y.normalizedLabel == x.normalizedLabel && y.song.labelId == x.song.labelId
  {
    GroupOfMembers(songs, GroupKey(x), y);
    if y in songs {
      GroupKeyInjective(x, y);
    }
  }
}
