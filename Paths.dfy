/**
  Where a resolved song is published: the label folder name
  (`generateLabelFolderName`), the page URL and the page's file under the
  output directory (`generateFanlinkPage`).
 */
module Paths {
  import opened Records
  import Decimal
  import Slug

  const Host: string := "fan.lucetune.com"

  /** `generateLabelFolderName`: the id is appended only to a duplicated slug, and only when it exceeds 1. */
  function LabelFolderName(normalizedLabel: string, labelId: int, isDuplicateLabel: bool): string {
    if isDuplicateLabel && labelId > 1 then normalizedLabel + "-" + Decimal.IntToString(labelId)
    else normalizedLabel
  }

  /** The page URL `fan.lucetune.com/${folder}/${final_song_number}`. */
  function PageUrl(folder: string, finalSongNumber: int): string {
    Host + "/" + folder + "/" + Decimal.IntToString(finalSongNumber)
  }

  /**
    The page's file relative to the output directory:
    `path.join(DIST_DIR, folder, number, 'index.html')`.  `path.join` skips an
    empty segment, so the page of an empty folder name sits directly under
    the output directory.
   */
  function PageFile(folder: string, finalSongNumber: int): string {
    (if folder == [] then "" else folder + "/") + Decimal.IntToString(finalSongNumber) + "/index.html"
  }

  /** The record returned for each generated page. */
  datatype PageInfo = PageInfo(
    songTitle: string,
    artist: string,
    labelFolder: string,
    songNumber: int,
    url: string,
    filePath: string)

  /** The part of `generateFanlinkPage` that computes names, without the file writes. */
  function FanlinkPage(song: ResolvedSong): PageInfo {
    var folder := LabelFolderName(song.labelled.normalizedLabel, song.labelled.song.labelId, song.labelled.isDuplicateLabel);
    PageInfo(song.labelled.song.songTitle, song.labelled.song.artist, folder, song.finalSongNumber,
      PageUrl(folder, song.finalSongNumber), PageFile(folder, song.finalSongNumber))
  }

  predicate NoSlash(s: string) {
    forall i :: 0 <= i < |s| ==> s[i] != '/'
  }

  lemma IntToStringNoSlash(n: int)
    ensures NoSlash(Decimal.IntToString(n))
    ensures Decimal.IntToString(n) != []
  {
    Decimal.ParseIntToString(n);
    var r := Decimal.IntToString(n);
    if !Decimal.AllDigits(r) {
      forall i | 0 <= i < |r| ensures r[i] != '/' {
        if i > 0 {
          assert r[i] == r[1..][i - 1];
        }
      }
    }
  }

  /**
    The folder name is the slug with the suffix `-<id>` exactly when the slug
    is duplicated and the id exceeds 1; otherwise it is the slug itself.
   */
  lemma LabelFolderNameSuffix(normalizedLabel: string, labelId: int, isDuplicateLabel: bool)
    ensures var f := LabelFolderName(normalizedLabel, labelId, isDuplicateLabel);
      && normalizedLabel <= f
      && (f == normalizedLabel <==> !(isDuplicateLabel && labelId > 1))
      && (f != normalizedLabel ==> f[|normalizedLabel|..] == "-" + Decimal.IntToString(labelId))
  {
    var f := LabelFolderName(normalizedLabel, labelId, isDuplicateLabel);
    IntToStringNoSlash(labelId);
    if isDuplicateLabel && labelId > 1 {
      assert |f| > |normalizedLabel|;
      assert f == normalizedLabel + ("-" + Decimal.IntToString(labelId));
    }
  }

  /** A slug-shaped label gives a folder name without `/`. */
  lemma LabelFolderNameNoSlash(normalizedLabel: string, labelId: int, isDuplicateLabel: bool)
    requires Slug.IsSlug(normalizedLabel)
    ensures NoSlash(LabelFolderName(normalizedLabel, labelId, isDuplicateLabel))
  {
    IntToStringNoSlash(labelId);
    var f := LabelFolderName(normalizedLabel, labelId, isDuplicateLabel);
    var d := Decimal.IntToString(labelId);
    forall i | 0 <= i < |f| ensures f[i] != '/' {
      if i < |normalizedLabel| {
        assert f[i] == normalizedLabel[i];
      } else if i > |normalizedLabel| {
        assert f[i] == d[i - |normalizedLabel| - 1];
      }
    }
  }

  /** Under one duplicated slug, ids above 1 give pairwise different folder names. */
  lemma LabelFolderNameInjective(normalizedLabel: string, a: int, b: int)
    requires a > 1 && b > 1
    ensures LabelFolderName(normalizedLabel, a, true) == LabelFolderName(normalizedLabel, b, true) <==> a == b
  {
    if LabelFolderName(normalizedLabel, a, true) == LabelFolderName(normalizedLabel, b, true) {
      var n := |normalizedLabel| + 1;
      assert LabelFolderName(normalizedLabel, a, true)[n..] == Decimal.IntToString(a);
      assert LabelFolderName(normalizedLabel, b, true)[n..] == Decimal.IntToString(b);
      Decimal.IntToStringInjective(a, b);
    }
  }

  /** `x + "/" + y`, where `x` contains no `/`, determines both parts. */
  lemma SplitAtSlash(x1: string, y1: string, x2: string, y2: string)
    requires NoSlash(x1) && NoSlash(x2)
    requires x1 + "/" + y1 == x2 + "/" + y2
    ensures x1 == x2 && y1 == y2
  {
    var s := x1 + "/" + y1;
    assert s[|x1|] == '/' && (x2 + "/" + y2)[|x2|] == '/';
    assert |x1| == |x2|;
    assert x1 == s[..|x1|] && x2 == (x2 + "/" + y2)[..|x2|];
    assert y1 == s[|x1| + 1..] && y2 == (x2 + "/" + y2)[|x2| + 1..];
  }

  lemma UrlParts(h: string, f1: string, d1: string, f2: string, d2: string)
    requires NoSlash(f1) && NoSlash(f2)
    requires h + "/" + f1 + "/" + d1 == h + "/" + f2 + "/" + d2
    ensures f1 == f2 && d1 == d2
  {
    var u1, u2 := f1 + "/" + d1, f2 + "/" + d2;
    var p := h + "/";
    assert h + "/" + f1 + "/" + d1 == p + u1;
    assert h + "/" + f2 + "/" + d2 == p + u2;
    assert u1 == (p + u1)[|p|..] && u2 == (p + u2)[|p|..];
    SplitAtSlash(f1, d1, f2, d2);
  }

  /** The URL of a folder without `/` determines the folder and the song number. */
  lemma PageUrlInjective(f1: string, n1: int, f2: string, n2: int)
    requires NoSlash(f1) && NoSlash(f2)
    ensures PageUrl(f1, n1) == PageUrl(f2, n2) <==> f1 == f2 && n1 == n2
  {
    if PageUrl(f1, n1) == PageUrl(f2, n2) {
      UrlParts(Host, f1, Decimal.IntToString(n1), f2, Decimal.IntToString(n2));
      Decimal.IntToStringInjective(n1, n2);
    }
  }

  lemma FileParts(p: string, d1: string, d2: string)
    requires NoSlash(d1) && NoSlash(d2)
    requires p + d1 + "/index.html" == p + d2 + "/index.html"
    ensures d1 == d2
  {
    var t := "index.html";
    var u1, u2 := d1 + "/" + t, d2 + "/" + t;
    assert p + d1 + "/index.html" == p + u1;
    assert p + d2 + "/index.html" == p + u2;
    assert u1 == (p + u1)[|p|..] && u2 == (p + u2)[|p|..];
    SplitAtSlash(d1, t, d2, t);
  }

  /** Within one folder the page file determines the song number. */
  lemma PageFileInjective(folder: string, n1: int, n2: int)
    ensures PageFile(folder, n1) == PageFile(folder, n2) <==> n1 == n2
  {
    if PageFile(folder, n1) == PageFile(folder, n2) {
      IntToStringNoSlash(n1);
      IntToStringNoSlash(n2);
      FileParts(if folder == [] then "" else folder + "/", Decimal.IntToString(n1), Decimal.IntToString(n2));
      Decimal.IntToStringInjective(n1, n2);
    }
  }

  /** A non-empty folder name gives the file `<folder>/<number>/index.html`, and the URL path is its directory. */
  lemma PageFileMatchesUrl(folder: string, n: int)
    requires folder != []
    ensures PageUrl(folder, n) + "/index.html" == Host + "/" + PageFile(folder, n)
  {
  }

  /** An empty slug (a label name without any `[a-z0-9]`) gives the URL `fan.lucetune.com//<number>` but the file `<number>/index.html`. */
  lemma EmptyFolderPage(n: int)
    requires n == 3
    ensures PageUrl("", n) == "fan.lucetune.com//3"
    ensures PageFile("", n) == "3/index.html"
  {
    assert Decimal.IntToString(3) == "3";
  }

  /** Folder names are not unique across slugs: `a` with id 2 in a duplicated slug and the unique slug `a-2` share `a-2`. */
  lemma FolderNameAcrossSlugs(a: string, b: string)
    requires a == "a" && b == "a-2"
    ensures LabelFolderName(a, 2, true) == LabelFolderName(b, 5, false)
  {
    assert Decimal.IntToString(2) == "2";
  }

  /** Nor within one duplicated slug: ids 1 and -3 both give the bare slug. */
  lemma FolderNameWithinSlug(slug: string)
    ensures LabelFolderName(slug, 1, true) == LabelFolderName(slug, -3, true) == slug
  {
  }
}
