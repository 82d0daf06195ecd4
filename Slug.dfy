/**
  Label-name normalisation (`normalizeLabelName`): lowercase the name, replace
  every maximal run of characters outside `[a-z0-9]` by one `-`, and strip
  leading and trailing `-`.  Lowercasing is ASCII only.
 */
module Slug {

  predicate IsSlugChar(c: char) {
    'a' <= c <= 'z' || '0' <= c <= '9'
  }

  function LowerChar(c: char): char {
    if 'A' <= c <= 'Z' then (c as int + 32) as char else c
  }

  /** `toLowerCase()`, restricted to the ASCII letters. */
  function ToLower(s: string): (r: string)
    ensures |r| == |s|
    ensures forall i :: 0 <= i < |s| ==> r[i] == LowerChar(s[i])
  {
    seq(|s|, i requires 0 <= i < |s| => LowerChar(s[i]))
  }

  /** Drops the run of characters outside `[a-z0-9]` at the front of `s`. */
  function DropRun(s: string): (r: string)
    ensures |r| <= |s|
    ensures r == [] || IsSlugChar(r[0])
  {
    if s != [] && !IsSlugChar(s[0]) then DropRun(s[1..]) else s
  }

  /** `replace(/[^a-z0-9]+/g, '-')` */
  function CollapseRuns(s: string): string
    decreases |s|
  {
    if s == [] then []
    else if IsSlugChar(s[0]) then [s[0]] + CollapseRuns(s[1..])
    else "-" + CollapseRuns(DropRun(s[1..]))
  }

  function TrimStart(s: string): (r: string)
    ensures |r| <= |s|
    ensures r == [] || r[0] != '-'
  {
    if s != [] && s[0] == '-' then TrimStart(s[1..]) else s
  }

  /** `TrimStart` only removes characters from the front. */
  lemma {:induction false} TrimStartSuffix(s: string)
    ensures TrimStart(s) == s[|s| - |TrimStart(s)|..]
  {
    if s != [] && s[0] == '-' {
      TrimStartSuffix(s[1..]);
    }
  }

  function TrimEnd(s: string): (r: string)
    ensures |r| <= |s|
    ensures r == [] || r[|r| - 1] != '-'
  {
    if s != [] && s[|s| - 1] == '-' then TrimEnd(s[..|s| - 1]) else s
  }

  /** `TrimEnd` only removes characters from the back. */
  lemma {:induction false} TrimEndPrefix(s: string)
    ensures TrimEnd(s) == s[..|TrimEnd(s)|]
  {
    if s != [] && s[|s| - 1] == '-' {
      TrimEndPrefix(s[..|s| - 1]);
    }
  }

  /** `normalizeLabelName(labelName)`; the final `replace(/^-+|-+$/g, '')` strips both ends. */
  function Normalize(labelName: string): string {
    TrimEnd(TrimStart(CollapseRuns(ToLower(labelName))))
  }

  /** Only `[a-z0-9-]`, and no `--`. */
  predicate DashSeparated(s: string) {
    && (forall i :: 0 <= i < |s| ==> IsSlugChar(s[i]) || s[i] == '-')
    && (forall i :: 0 <= i < |s| - 1 && s[i] == '-' ==> s[i + 1] != '-')
  }

  /** The shape of every normalised label name. */
  predicate IsSlug(s: string) {
    && DashSeparated(s)
    && (s == [] || (s[0] != '-' && s[|s| - 1] != '-'))
  }

  /** The characters of `s` that belong to `[a-z0-9]`, in order. */
  function Alnums(s: string): string {
    if s == [] then [] else (if IsSlugChar(s[0]) then [s[0]] else []) + Alnums(s[1..])
  }

  lemma {:induction false} AlnumsAppend(a: string, b: string)
    ensures Alnums(a + b) == Alnums(a) + Alnums(b)
  {
    if a == [] {
      assert a + b == b;
    } else {
      var h := if IsSlugChar(a[0]) then [a[0]] else [];
      assert (a + b)[0] == a[0] && (a + b)[1..] == a[1..] + b;
      AlnumsAppend(a[1..], b);
      assert Alnums(a + b) == h + (Alnums(a[1..]) + Alnums(b));
      assert Alnums(a) == h + Alnums(a[1..]);
    }
  }

  lemma {:induction false} DropRunAlnums(s: string)
    ensures Alnums(DropRun(s)) == Alnums(s)
  {
    if s != [] && !IsSlugChar(s[0]) {
      DropRunAlnums(s[1..]);
    }
  }

  lemma {:induction false} CollapseRunsFirst(s: string)
    requires s != []
    ensures CollapseRuns(s) != []
    ensures CollapseRuns(s)[0] == if IsSlugChar(s[0]) then s[0] else '-'
  {
  }

  /** What `CollapseRuns` produces: only `[a-z0-9-]`, no `--`, and the same alphanumerics. */
  lemma {:induction false} CollapseRunsShape(s: string)
    ensures DashSeparated(CollapseRuns(s))
    ensures Alnums(CollapseRuns(s)) == Alnums(s)
    decreases |s|
  {
    if s == [] {
    } else if IsSlugChar(s[0]) {
      CollapseRunsShape(s[1..]);
      AlnumsAppend([s[0]], CollapseRuns(s[1..]));
    } else {
      var t := DropRun(s[1..]);
      CollapseRunsShape(t);
      DropRunAlnums(s[1..]);
      AlnumsAppend("-", CollapseRuns(t));
      if t != [] {
        CollapseRunsFirst(t);
      }
    }
  }

  lemma {:induction false} TrimStartAlnums(s: string)
    ensures Alnums(TrimStart(s)) == Alnums(s)
  {
    if s != [] && s[0] == '-' {
      TrimStartAlnums(s[1..]);
    }
  }

  lemma {:induction false} TrimEndAlnums(s: string)
    ensures Alnums(TrimEnd(s)) == Alnums(s)
  {
    if s != [] && s[|s| - 1] == '-' {
      var p := s[..|s| - 1];
      assert s == p + "-";
      AlnumsAppend(p, "-");
      TrimEndAlnums(p);
    }
  }

  /** Stripping leading `-` keeps the `[a-z0-9-]`-without-`--` shape and the alphanumerics. */
  lemma TrimStartShape(c: string)
    requires DashSeparated(c)
    ensures DashSeparated(TrimStart(c))
    ensures Alnums(TrimStart(c)) == Alnums(c)
  {
    var a := TrimStart(c);
    TrimStartAlnums(c);
    TrimStartSuffix(c);
    var k := |c| - |a|;
    forall i | 0 <= i < |a| ensures IsSlugChar(a[i]) || a[i] == '-' {
      assert a[i] == c[k + i];
    }
    forall i | 0 <= i < |a| - 1 && a[i] == '-' ensures a[i + 1] != '-' {
      assert a[i] == c[k + i] && a[i + 1] == c[k + i + 1];
    }
  }

  /** Stripping trailing `-` from a dash-separated text with no leading `-` gives a slug. */
  lemma TrimEndShape(a: string)
    requires DashSeparated(a) && (a == [] || a[0] != '-')
    ensures IsSlug(TrimEnd(a))
    ensures Alnums(TrimEnd(a)) == Alnums(a)
  {
    var r := TrimEnd(a);
    TrimEndAlnums(a);
    TrimEndPrefix(a);
    forall i | 0 <= i < |r| ensures IsSlugChar(r[i]) || r[i] == '-' {
      assert r[i] == a[i];
    }
    forall i | 0 <= i < |r| - 1 && r[i] == '-' ensures r[i + 1] != '-' {
      assert r[i] == a[i] && r[i + 1] == a[i + 1];
    }
    assert r != [] ==> r[0] == a[0];
  }

  /** A slug is empty exactly when it has no alphanumerics. */
  lemma SlugAlnumsEmpty(r: string)
    requires IsSlug(r)
    ensures r == [] <==> Alnums(r) == []
  {
    if r != [] {
      assert IsSlugChar(r[0]);
      assert Alnums(r) == [r[0]] + Alnums(r[1..]);
    }
  }

  /**
    The normaliser's promise: its output is a slug, and it keeps exactly the
    alphanumerics of the lowercased input, in order.  In particular the result
    is empty exactly when the lowercased name has no character in `[a-z0-9]`.
   */
  lemma NormalizeIsSlug(labelName: string)
    ensures IsSlug(Normalize(labelName))
    ensures Alnums(Normalize(labelName)) == Alnums(ToLower(labelName))
    ensures Normalize(labelName) == [] <==> Alnums(ToLower(labelName)) == []
  {
    var c := CollapseRuns(ToLower(labelName));
    CollapseRunsShape(ToLower(labelName));
    TrimStartShape(c);
    TrimEndShape(TrimStart(c));
    SlugAlnumsEmpty(Normalize(labelName));
  }

  lemma {:induction false} ToLowerOfSlug(s: string)
    requires DashSeparated(s)
    ensures ToLower(s) == s
  {
  }

  lemma {:induction false} CollapseRunsOfSlug(s: string)
    requires DashSeparated(s)
    ensures CollapseRuns(s) == s
    decreases |s|
  {
    if s != [] {
      assert DashSeparated(s[1..]) by {
        forall i | 0 <= i < |s[1..]| - 1 && s[1..][i] == '-' ensures s[1..][i + 1] != '-' {
          assert s[1..][i] == s[i + 1];
        }
      }
      if !IsSlugChar(s[0]) {
        assert s[1..] == [] || IsSlugChar(s[1]);
        assert DropRun(s[1..]) == s[1..];
      }
      CollapseRunsOfSlug(s[1..]);
    }
  }

  /** A slug is left unchanged by the normaliser. */
  lemma NormalizeOfSlug(s: string)
    requires IsSlug(s)
    ensures Normalize(s) == s
  {
    ToLowerOfSlug(s);
    CollapseRunsOfSlug(s);
    TrimsOfSlug(s);
  }

  lemma TrimsOfSlug(s: string)
    requires s == [] || (s[0] != '-' && s[|s| - 1] != '-')
    ensures TrimEnd(TrimStart(s)) == s
  {
  }

  /** Normalising twice gives the same result as normalising once. */
  lemma NormalizeIdempotent(labelName: string)
    ensures Normalize(Normalize(labelName)) == Normalize(labelName)
  {
    NormalizeIsSlug(labelName);
    NormalizeOfSlug(Normalize(labelName));
  }

  lemma {:induction false} CollapseRunsKeeps(a: string, b: string)
    requires forall i :: 0 <= i < |a| ==> IsSlugChar(a[i])
    ensures CollapseRuns(a + b) == a + CollapseRuns(b)
  {
    if a == [] {
      assert a + b == b;
    } else {
      assert (a + b)[1..] == a[1..] + b;
      CollapseRunsKeeps(a[1..], b);
    }
  }

  lemma {:induction false} DropRunSeparator(a: string, b: string)
    requires forall i :: 0 <= i < |a| ==> !IsSlugChar(a[i])
    requires b == [] || IsSlugChar(b[0])
    ensures DropRun(a + b) == b
  {
    if a == [] {
      assert a + b == b;
    } else {
      assert (a + b)[1..] == a[1..] + b;
      DropRunSeparator(a[1..], b);
    }
  }

  lemma CollapseRunsSeparator(a: string, b: string)
    requires a != [] && forall i :: 0 <= i < |a| ==> !IsSlugChar(a[i])
    requires b == [] || IsSlugChar(b[0])
    ensures CollapseRuns(a + b) == "-" + CollapseRuns(b)
  {
    assert (a + b)[1..] == a[1..] + b;
    DropRunSeparator(a[1..], b);
  }

  /** Collapsing `w1 sep w2 tail` gives `w1-w2`, followed by one `-` when `tail` is not empty. */
  lemma CollapseTwoWords(w1: string, sep: string, w2: string, tail: string)
    requires forall i :: 0 <= i < |w1| ==> IsSlugChar(w1[i])
    requires w2 != [] && forall i :: 0 <= i < |w2| ==> IsSlugChar(w2[i])
    requires sep != [] && forall i :: 0 <= i < |sep| ==> !IsSlugChar(sep[i])
    requires forall i :: 0 <= i < |tail| ==> !IsSlugChar(tail[i])
    ensures CollapseRuns(w1 + sep + w2 + tail) == w1 + "-" + w2 + (if tail == [] then "" else "-")
  {
    if tail == [] {
      CollapseRunsKeeps(w2, []);
      assert w2 + [] == w2;
    } else {
      assert CollapseRuns(tail) == "-" by {
        CollapseRunsSeparator(tail, []);
        assert tail + [] == tail;
      }
      CollapseRunsKeeps(w2, tail);
    }
    CollapseRunsSeparator(sep, w2 + tail);
    assert w1 + sep + w2 + tail == w1 + (sep + (w2 + tail));
    CollapseRunsKeeps(w1, sep + (w2 + tail));
  }

  /** Two words separated, and possibly followed, by punctuation normalise to `w1-w2`. */
  lemma NormalizeTwoWords(name: string, w1: string, sep: string, w2: string, tail: string)
    requires w1 != [] && forall i :: 0 <= i < |w1| ==> IsSlugChar(w1[i])
    requires w2 != [] && forall i :: 0 <= i < |w2| ==> IsSlugChar(w2[i])
    requires sep != [] && forall i :: 0 <= i < |sep| ==> !IsSlugChar(sep[i])
    requires forall i :: 0 <= i < |tail| ==> !IsSlugChar(tail[i])
    requires ToLower(name) == w1 + sep + w2 + tail
    ensures Normalize(name) == w1 + "-" + w2
  {
    CollapseTwoWords(w1, sep, w2, tail);
    var c := w1 + "-" + w2;
    var collapsed := c + (if tail == [] then "" else "-");
    assert collapsed[0] == w1[0];
    assert TrimStart(collapsed) == collapsed;
    assert c[|c| - 1] == w2[|w2| - 1];
    if tail != [] {
      assert collapsed[..|collapsed| - 1] == c;
    } else {
      assert collapsed == c;
    }
    assert TrimEnd(collapsed) == c;
  }

  /** `Night City` and `night-city!!` both normalise to `night-city`. */
  lemma NormalizeNightCity(name: string, punctuated: string)
    requires name == "Night City" && punctuated == "night-city!!"
    ensures Normalize(name) == "night-city"
    ensures Normalize(punctuated) == "night-city"
  {
    assert ToLower(name) == "night" + " " + "city" + "";
    NormalizeTwoWords(name, "night", " ", "city", "");
    assert ToLower(punctuated) == "night" + "-" + "city" + "!!";
    NormalizeTwoWords(punctuated, "night", "-", "city", "!!");
  }

  lemma NormalizeEmpty()
    ensures Normalize("") == ""
  {
  }
}
