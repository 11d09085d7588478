/**
 * The pure parts of the download and share actions: the file name a
 * download is saved under, and the link a share passes on.
 */
module Download {
  import opened Wrappers
  import opened Text
  import opened Catalog

  /** `s` with its leading `\s` characters removed. */
  function DropSpaces(s: string): (r: string)
    ensures |r| <= |s| && r == s[|s| - |r|..]
    ensures r == [] || !IsSpace(r[0])
    ensures forall i :: 0 <= i < |s| - |r| ==> IsSpace(s[i])
  {
    if s != [] && IsSpace(s[0]) then DropSpaces(s[1..]) else s
  }

  /** `s.replace(/\s+/g, '-')`: every maximal run of `\s` characters becomes a single hyphen. */
  function Hyphenate(s: string): (r: string)
    ensures NoSpace(r)
    decreases |s|
  {
    if s == [] then []
    else if IsSpace(s[0]) then ['-'] + Hyphenate(DropSpaces(s[1..]))
    else [s[0]] + Hyphenate(s[1..])
  }

  /** The name a downloaded picture is saved under: the alt text lower-cased and hyphenated, plus ".jpg". */
  function DownloadFilename(img: GalleryImage): (r: string)
    ensures |r| >= 4 && r[|r| - 4..] == ".jpg"
    ensures NoSpace(r)
  {
    var stem := Hyphenate(ToLower(img.alt));
    assert (stem + ".jpg")[|stem|..] == ".jpg";
    stem + ".jpg"
  }

  /**
   * A reference for the regular-expression replacement, read one character at
   * a time: a `\s` character becomes a hyphen when it starts a run
   * (`inRun` false) and vanishes when it continues one.
   */
  function ReplaceRuns(s: string, inRun: bool): string
  {
    if s == [] then []
    else if IsSpace(s[0]) then (if inRun then [] else ['-']) + ReplaceRuns(s[1..], true)
    else [s[0]] + ReplaceRuns(s[1..], false)
  }

  lemma {:induction false} ReplaceRunsSkipsRun(s: string)
    ensures ReplaceRuns(s, true) == ReplaceRuns(DropSpaces(s), true)
  {
    if s != [] && IsSpace(s[0]) {
      ReplaceRunsSkipsRun(s[1..]);
    }
  }

  /** Hyphenating agrees with the character-by-character reading of the replacement. */
  lemma {:induction false} HyphenateIsReplaceRuns(s: string)
    ensures Hyphenate(s) == ReplaceRuns(s, false)
    decreases |s|
  {
    if s != [] {
      if IsSpace(s[0]) {
        var rest := DropSpaces(s[1..]);
        HyphenateIsReplaceRuns(rest);
        ReplaceRunsSkipsRun(s[1..]);
        assert rest == [] || !IsSpace(rest[0]);
        assert ReplaceRuns(rest, true) == ReplaceRuns(rest, false);
      } else {
        HyphenateIsReplaceRuns(s[1..]);
      }
    }
  }

  /** A text without `\s` characters is left as it is. */
  lemma {:induction false} HyphenateNoSpace(s: string)
    requires NoSpace(s)
    ensures Hyphenate(s) == s
  {
    if s != [] {
      HyphenateNoSpace(s[1..]);
    }
  }

  /** Hyphenating is idempotent; a text is its own hyphenation exactly when it has no `\s` character. */
  lemma HyphenateFixpoint(s: string)
    ensures Hyphenate(Hyphenate(s)) == Hyphenate(s)
    ensures Hyphenate(s) == s <==> NoSpace(s)
  {
    HyphenateNoSpace(Hyphenate(s));
    if NoSpace(s) {
      HyphenateNoSpace(s);
    }
  }

  /**
   * Adjacent `\s` characters give one hyphen, not two: widening a run by
   * one more character does not change the file name stem.
   */
  lemma RunCollapses(p: string, a: char, b: char, q: string)
    requires IsSpace(a) && IsSpace(b)
    ensures Hyphenate(p + [a, b] + q) == Hyphenate(p + [a] + q)
  {
    HyphenateIsReplaceRuns(p + [a, b] + q);
    HyphenateIsReplaceRuns(p + [a] + q);
    ReplaceRunsCollapse(p, a, b, q, false);
  }

  /** The same for the whole file name: a whitespace run in the alt text of any length gives one hyphen. */
  lemma FilenameCollapses(img: GalleryImage, p: string, a: char, b: char, q: string)
    requires IsSpace(a) && IsSpace(b)
    requires img.alt == p + [a, b] + q
    ensures DownloadFilename(img) == DownloadFilename(img.(alt := p + [a] + q))
  {
    ToLowerAppend(p + [a, b], q);
    ToLowerAppend(p, [a, b]);
    ToLowerAppend(p + [a], q);
    ToLowerAppend(p, [a]);
    assert ToLower([a, b]) == [a, b] && ToLower([a]) == [a];
    RunCollapses(ToLower(p), a, b, ToLower(q));
  }

  lemma {:induction false} ReplaceRunsCollapse(p: string, a: char, b: char, q: string, inRun: bool)
    requires IsSpace(a) && IsSpace(b)
    ensures ReplaceRuns(p + [a, b] + q, inRun) == ReplaceRuns(p + [a] + q, inRun)
    decreases |p|
  {
    if p == [] {
      assert p + [a, b] + q == [a] + ([b] + q);
      assert p + [a] + q == [a] + q;
      assert ([a] + ([b] + q))[1..] == [b] + q;
      assert ([b] + q)[1..] == q;
    } else {
      assert (p + [a, b] + q)[1..] == p[1..] + [a, b] + q;
      assert (p + [a] + q)[1..] == p[1..] + [a] + q;
      ReplaceRunsCollapse(p[1..], a, b, q, IsSpace(p[0]));
    }
  }

  /** The share link: the record's attribution link unless it is missing or empty, then the page's own address. */
  function ShareUrl(img: GalleryImage, pageUrl: string): (r: string)
    ensures r == pageUrl || (img.sourceUrl.Some? && r == img.sourceUrl.value)
    ensures img.sourceUrl.Some? && img.sourceUrl.value != "" ==> r == img.sourceUrl.value
    ensures !(img.sourceUrl.Some? && img.sourceUrl.value != "") ==> r == pageUrl
    ensures r == "" ==> pageUrl == ""
  {
    match img.sourceUrl
    case Some(url) => if url != "" then url else pageUrl
    case None => pageUrl
  }

  /** Every catalog record has a non-empty attribution link, so sharing never falls back to the page address. */
  lemma CatalogSharesOwnLink(i: nat, pageUrl: string)
    requires i < |GalleryImages|
    ensures ShareUrl(GalleryImages[i], pageUrl) == GalleryImages[i].sourceUrl.value
    ensures ShareUrl(GalleryImages[i], pageUrl) == SiteUrl || ShareUrl(GalleryImages[i], pageUrl) == InstagramUrl
  {
  }
}
