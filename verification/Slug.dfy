/**
 Area slugs (go/internal/area/area.go): turning a display name into a slug, and picking one that no
 other area uses. Unicode lowercasing is a parameter; it maps one character to one character.
 */
module Slug {
  import opened Prelude
  import opened Numeral

  predicate SlugChar(c: char)
  {
    'a' <= c <= 'z' || '0' <= c <= '9'
  }

  function MapChars(s: string, f: char -> char): (r: string)
    ensures |r| == |s|
  {
    if s == "" then "" else MapChars(s[..|s| - 1], f) + [f(s[|s| - 1])]
  }

  /** Every run of characters outside [a-z0-9] becomes one hyphen. */
  function Collapse(s: string): string
  {
    if s == "" then ""
    else
      var r, c := Collapse(s[..|s| - 1]), s[|s| - 1];
      if SlugChar(c) then r + [c]
      else if r != "" && r[|r| - 1] == '-' then r
      else r + "-"
  }

  function TrimLeft(s: string): string
  {
    if s != "" && s[0] == '-' then TrimLeft(s[1..]) else s
  }

  function TrimRight(s: string): string
  {
    if s != "" && s[|s| - 1] == '-' then TrimRight(s[..|s| - 1]) else s
  }

  function Slugify(name: string, lower: char -> char): string
  {
    var s := TrimRight(TrimLeft(Collapse(MapChars(name, lower))));
    if s == "" then "area" else s
  }

  // What a slug is.

  /** Runs of lowercase letters and digits, joined by single hyphens. */
  predicate IsSlug(s: string)
  {
    && s != "" && s[0] != '-' && s[|s| - 1] != '-'
    && Hyphenated(s)
  }

  predicate Hyphenated(s: string)
  {
    && (forall i :: 0 <= i < |s| ==> SlugChar(s[i]) || s[i] == '-')
    && (forall i :: 0 <= i < |s| - 1 ==> !(s[i] == '-' && s[i + 1] == '-'))
  }

  /** The maximal runs of slug characters, in order. */
  function Words(s: string): (w: seq<string>)
    ensures s != "" && SlugChar(s[|s| - 1]) ==> w != []
  {
    if s == "" then []
    else
      var init, c := s[..|s| - 1], s[|s| - 1];
      var w := Words(init);
      if !SlugChar(c) then w
      else if init != "" && SlugChar(init[|init| - 1]) then w[..|w| - 1] + [w[|w| - 1] + [c]]
      else w + [[c]]
  }

  function Join(words: seq<string>): string
  {
    if words == [] then ""
    else if |words| == 1 then words[0]
    else Join(words[..|words| - 1]) + "-" + words[|words| - 1]
  }

  predicate AllSlugChars(s: string)
  {
    s != "" && forall i :: 0 <= i < |s| ==> SlugChar(s[i])
  }

  predicate AllWords(words: seq<string>)
  {
    forall i :: 0 <= i < |words| ==> AllSlugChars(words[i])
  }

  lemma AllWordsLonger(words: seq<string>, c: char)
    requires AllWords(words) && words != [] && SlugChar(c)
    ensures AllWords(words[..|words| - 1] + [words[|words| - 1] + [c]])
  {
    assert AllSlugChars(words[|words| - 1]);
  }

  lemma AllWordsMore(words: seq<string>, c: char)
    requires AllWords(words) && SlugChar(c)
    ensures AllWords(words + [[c]])
  {
  }

  lemma {:induction false} WordsAreWords(s: string)
    ensures AllWords(Words(s))
  {
    if s != "" {
      var init, c := s[..|s| - 1], s[|s| - 1];
      WordsAreWords(init);
      if SlugChar(c) {
        if init != "" && SlugChar(init[|init| - 1]) {
          AllWordsLonger(Words(init), c);
        } else {
          AllWordsMore(Words(init), c);
        }
      }
    }
  }

  lemma HyphenJoinIsSlug(a: string, w: string)
    requires IsSlug(a) && AllSlugChars(w)
    ensures IsSlug(a + "-" + w)
  {
    var s := a + "-" + w;
    forall i | 0 <= i < |s| ensures SlugChar(s[i]) || s[i] == '-' {
      if i < |a| { assert s[i] == a[i]; } else if i > |a| { assert s[i] == w[i - |a| - 1]; }
    }
    forall i | 0 <= i < |s| - 1 ensures !(s[i] == '-' && s[i + 1] == '-') {
      if i + 1 < |a| {
        assert s[i] == a[i] && s[i + 1] == a[i + 1];
      } else if i >= |a| {
        assert s[i + 1] == w[i - |a|];
      } else {
        assert s[i] == a[|a| - 1];
      }
    }
  }

  lemma {:induction false} JoinIsSlug(words: seq<string>)
    requires words != [] && forall i :: 0 <= i < |words| ==> AllSlugChars(words[i])
    ensures IsSlug(Join(words))
  {
    if |words| > 1 {
      JoinIsSlug(words[..|words| - 1]);
      HyphenJoinIsSlug(Join(words[..|words| - 1]), words[|words| - 1]);
    } else {
      assert AllSlugChars(words[0]);
    }
  }

  /** The hyphen that an edge separator leaves behind. */
  function Edge(present: bool): string { if present then "-" else "" }

  function Shape(front: bool, words: seq<string>, back: bool): string
  {
    if words == [] then "-" else Edge(front) + Join(words) + Edge(back)
  }

  lemma {:induction false} CollapseJoinsWords(s: string)
    requires s != ""
    ensures Collapse(s) == Shape(!SlugChar(s[0]), Words(s), !SlugChar(s[|s| - 1]))
  {
    var init, c := s[..|s| - 1], s[|s| - 1];
    if init == "" {
      assert Collapse(init) == "" && Words(init) == [];
    } else {
      CollapseJoinsWords(init);
      if Words(init) == [] {
        NoWordsNoChars(init);
      } else if SlugChar(c) {
        CollapseChar(s);
      } else {
        CollapseSeparator(s);
      }
    }
  }

  lemma CollapseChar(s: string)
    requires |s| > 1 && SlugChar(s[|s| - 1]) && Words(s[..|s| - 1]) != []
    requires Collapse(s[..|s| - 1]) == Shape(!SlugChar(s[0]), Words(s[..|s| - 1]), !SlugChar(s[|s| - 2]))
    ensures Collapse(s) == Shape(!SlugChar(s[0]), Words(s), false)
  {
    var init, c := s[..|s| - 1], s[|s| - 1];
    if SlugChar(init[|init| - 1]) {
      ShapeExtend(!SlugChar(s[0]), Words(init), c);
    } else {
      ShapeNewWord(!SlugChar(s[0]), Words(init), c);
    }
  }

  lemma CollapseSeparator(s: string)
    requires |s| > 1 && !SlugChar(s[|s| - 1]) && Words(s[..|s| - 1]) != []
    requires Collapse(s[..|s| - 1]) == Shape(!SlugChar(s[0]), Words(s[..|s| - 1]), !SlugChar(s[|s| - 2]))
    ensures Collapse(s) == Shape(!SlugChar(s[0]), Words(s), true)
  {
    var init := s[..|s| - 1];
    WordsAreWords(init);
    JoinIsSlug(Words(init));
    ShapeSeparator(!SlugChar(s[0]), Words(init), !SlugChar(init[|init| - 1]));
  }

  lemma ShapeExtend(front: bool, w: seq<string>, c: char)
    requires w != []
    ensures Shape(front, w, false) + [c] == Shape(front, w[..|w| - 1] + [w[|w| - 1] + [c]], false)
  {
    JoinExtend(w, c);
  }

  lemma ShapeNewWord(front: bool, w: seq<string>, c: char)
    requires w != []
    ensures Shape(front, w, true) + [c] == Shape(front, w + [[c]], false)
  {
    assert (w + [[c]])[..|w|] == w;
  }

  lemma ShapeSeparator(front: bool, w: seq<string>, sep: bool)
    requires w != [] && IsSlug(Join(w))
    ensures var r := Shape(front, w, sep);
            Shape(front, w, true) == if r != "" && r[|r| - 1] == '-' then r else r + "-"
  {
    var r := Edge(front) + Join(w);
    assert r[|r| - 1] == Join(w)[|Join(w)| - 1];
    assert Shape(front, w, false) == r;
  }

  lemma {:induction false} NoWordsNoChars(s: string)
    requires Words(s) == []
    ensures forall i :: 0 <= i < |s| ==> !SlugChar(s[i])
  {
    if s != "" {
      NoWordsNoChars(s[..|s| - 1]);
    }
  }

  lemma JoinExtend(w: seq<string>, c: char)
    requires w != []
    ensures Join(w[..|w| - 1] + [w[|w| - 1] + [c]]) == Join(w) + [c]
  {
    var w' := w[..|w| - 1] + [w[|w| - 1] + [c]];
    assert w'[..|w'| - 1] == w[..|w| - 1];
    if |w| > 1 {
      assert Join(w') == Join(w[..|w| - 1]) + "-" + (w[|w| - 1] + [c]);
    }
  }

  lemma TrimEdges(front: bool, core: string, back: bool)
    requires IsSlug(core)
    ensures TrimRight(TrimLeft(Edge(front) + core + Edge(back))) == core
  {
    var s := Edge(front) + core + Edge(back);
    var t := core + Edge(back);
    assert s == Edge(front) + t;
    assert TrimLeft(t) == t;
    if front {
      assert s[1..] == t;
    } else {
      assert s == t;
    }
    if back {
      assert t[..|t| - 1] == core;
    } else {
      assert t == core;
    }
  }

  /**
   A slug is the words of the lowercased name joined by hyphens, or "area" when the name has none;
   it is always a well-formed slug.
   */
  lemma SlugifyJoinsWords(name: string, lower: char -> char)
    ensures var w := Words(MapChars(name, lower));
            Slugify(name, lower) == (if w == [] then "area" else Join(w))
    ensures IsSlug(Slugify(name, lower))
  {
    var s := MapChars(name, lower);
    if s != "" {
      CollapseJoinsWords(s);
      WordsAreWords(s);
      if Words(s) == [] {
        assert TrimLeft("-") == TrimLeft("-"[1..]);
      } else {
        JoinIsSlug(Words(s));
        TrimEdges(!SlugChar(s[0]), Join(Words(s)), !SlugChar(s[|s| - 1]));
      }
    }
  }

  ghost predicate LowerOk(lower: char -> char)
  {
    forall c :: SlugChar(c) || c == '-' ==> lower(c) == c
  }

  /** A slug is its own slug. */
  lemma SlugifyFixed(s: string, lower: char -> char)
    requires LowerOk(lower) && IsSlug(s)
    ensures Slugify(s, lower) == s
  {
    MapCharsSame(s, lower);
    CollapseHyphenated(s);
    assert TrimLeft(s) == s;
  }

  lemma {:induction false} MapCharsSame(s: string, lower: char -> char)
    requires LowerOk(lower) && forall i :: 0 <= i < |s| ==> SlugChar(s[i]) || s[i] == '-'
    ensures MapChars(s, lower) == s
  {
    if s != "" {
      MapCharsSame(s[..|s| - 1], lower);
      assert s == s[..|s| - 1] + [s[|s| - 1]];
    }
  }

  lemma {:induction false} CollapseHyphenated(s: string)
    requires Hyphenated(s)
    ensures Collapse(s) == s
  {
    if s != "" {
      CollapseHyphenated(s[..|s| - 1]);
      assert s == s[..|s| - 1] + [s[|s| - 1]];
    }
  }

  /** The slug characters are the lowercase letters and the digits. */
  lemma SlugCharsAre(c: char)
    ensures SlugChar(c) <==> 97 <= c as int <= 122 || 48 <= c as int <= 57
  {
  }

  function Concat(words: seq<string>): string
  {
    if words == [] then "" else Concat(words[..|words| - 1]) + words[|words| - 1]
  }

  /** Where a run of slug characters begins. */
  predicate RunStarts(s: string, i: nat)
  {
    i < |s| && SlugChar(s[i]) && (i == 0 || !SlugChar(s[i - 1]))
  }

  function Runs(s: string): set<nat>
  {
    set i: nat | i < |s| && RunStarts(s, i)
  }

  lemma RunsOneMore(s: string)
    requires s != ""
    ensures |Runs(s)| == |Runs(s[..|s| - 1])| + if RunStarts(s, |s| - 1) then 1 else 0
  {
    var init, last := s[..|s| - 1], |s| - 1;
    forall i: nat | i < last ensures RunStarts(init, i) <==> RunStarts(s, i) {
      assert init[i] == s[i];
      if i > 0 { assert init[i - 1] == s[i - 1]; }
    }
    var more: set<nat> := if RunStarts(s, last) then {last} else {};
    assert Runs(s) == Runs(init) + more;
  }

  /** The words hold exactly the slug characters, in order. */
  lemma {:induction false} WordsHoldSlugChars(s: string)
    ensures Concat(Words(s)) == Filter(s, SlugChar)
  {
    if s != "" {
      WordsHoldSlugChars(s[..|s| - 1]);
      ConcatWords(s);
    }
  }

  /** There is one word for each run of slug characters. */
  lemma {:induction false} WordsAreTheRuns(s: string)
    ensures |Words(s)| == |Runs(s)|
  {
    if s == "" {
      assert Runs(s) == {};
    } else {
      WordsAreTheRuns(s[..|s| - 1]);
      RunsOneMore(s);
    }
  }

  lemma ConcatExtend(w: seq<string>, c: char)
    requires w != []
    ensures Concat(w[..|w| - 1] + [w[|w| - 1] + [c]]) == Concat(w) + [c]
  {
    var longer := w[..|w| - 1] + [w[|w| - 1] + [c]];
    assert longer[..|longer| - 1] == w[..|w| - 1];
    ConcatAssoc(Concat(w[..|w| - 1]), w[|w| - 1], [c]);
  }

  lemma ConcatOneMore(w: seq<string>, word: string)
    ensures Concat(w + [word]) == Concat(w) + word
  {
    assert (w + [word])[..|w|] == w;
  }

  lemma ConcatWords(s: string)
    requires s != ""
    ensures Concat(Words(s)) == Concat(Words(s[..|s| - 1])) + if SlugChar(s[|s| - 1]) then [s[|s| - 1]] else []
  {
    var init, c := s[..|s| - 1], s[|s| - 1];
    var w := Words(init);
    if !SlugChar(c) {
      assert Concat(w) + [] == Concat(w);
    } else if init != "" && SlugChar(init[|init| - 1]) {
      ConcatExtend(w, c);
    } else {
      ConcatOneMore(w, [c]);
    }
  }

  // Unique slugs.

  function Candidate(base: string, i: nat): string
  {
    base + "-" + Text(i, DECIMAL_BASE)
  }

  /** Suffix `i` is a hyphen and the decimal numeral of `i`: its digits count tens, and it has no leading zero. */
  lemma CandidateSuffix(base: string, i: nat)
    ensures i < 10 ==> Candidate(base, i) == base + "-" + [(48 + i) as char]
    ensures exists t :: Candidate(base, i) == base + "-" + t && PlaceValue(t, 10) == i && t != ""
                        && (i > 0 ==> t[0] != '0')
  {
    var t := Text(i, DECIMAL_BASE);
    ParseText(i, DECIMAL_BASE);
    ParseIsPlaceValue(t, DECIMAL_BASE);
    TextCanonical(i, DECIMAL_BASE);
  }

  lemma CandidateInjective(base: string, i: nat, j: nat)
    requires Candidate(base, i) == Candidate(base, j)
    ensures i == j
  {
    var n := |base| + 1;
    assert Candidate(base, i)[n..] == Text(i, DECIMAL_BASE);
    assert Candidate(base, j)[n..] == Text(j, DECIMAL_BASE);
    TextInjective(i, j, DECIMAL_BASE);
  }

  /** The base and its suffixed forms below `i`. */
  function Tried(base: string, i: nat): set<string>
  {
    if i <= 2 then {base} else Tried(base, i - 1) + {Candidate(base, i - 1)}
  }

  lemma {:induction false} CandidateIsNew(base: string, i: nat, j: nat)
    requires 2 <= i <= j
    ensures Candidate(base, j) !in Tried(base, i)
  {
    if i == 2 {
      assert |Candidate(base, j)| > |base|;
    } else {
      CandidateIsNew(base, i - 1, j);
      if Candidate(base, j) == Candidate(base, i - 1) {
        CandidateInjective(base, j, i - 1);
      }
    }
  }

  lemma {:induction false} TriedCount(base: string, taken: seq<string>, i: nat)
    requires i >= 2 && base in taken && forall j :: 2 <= j < i ==> Candidate(base, j) in taken
    ensures |Tried(base, i)| == i - 1 && Tried(base, i) <= ToSet(taken)
  {
    if i > 2 {
      TriedCount(base, taken, i - 1);
      CandidateIsNew(base, i - 1, i - 1);
    }
  }

  /** Pigeonhole: if the base and all suffixes below `i` are taken, `i` is at most one past the count. */
  lemma SuffixBound(base: string, taken: seq<string>, i: nat)
    requires i >= 2 && base in taken && forall j :: 2 <= j < i ==> Candidate(base, j) in taken
    ensures i <= |taken| + 1
  {
    TriedCount(base, taken, i);
    SubsetSize(Tried(base, i), ToSet(taken));
    SetBoundedBySequence(taken);
  }

  /** `slug` is the base, or the base with the smallest free suffix from 2 on. */
  ghost predicate IsUniqueSlug(slug: string, base: string, taken: seq<string>)
  {
    && slug !in taken
    && (slug == base
        || (base in taken
            && exists i: nat :: 2 <= i <= |taken| + 1 && slug == Candidate(base, i)
                                && forall j :: 2 <= j < i ==> Candidate(base, j) in taken))
  }

  function FirstFree(base: string, taken: seq<string>, i: nat): (slug: string)
    requires i >= 2 && base in taken && forall j :: 2 <= j < i ==> Candidate(base, j) in taken
    ensures IsUniqueSlug(slug, base, taken)
    decreases |taken| + 1 - i
  {
    SuffixBound(base, taken, i);
    if Candidate(base, i) !in taken then Candidate(base, i)
    else (SuffixBound(base, taken, i + 1); FirstFree(base, taken, i + 1))
  }

  function UniqueSlug(name: string, taken: seq<string>, lower: char -> char): (slug: string)
    ensures IsUniqueSlug(slug, Slugify(name, lower), taken)
  {
    var base := Slugify(name, lower);
    if base !in taken then base else FirstFree(base, taken, 2)
  }

  /** The search as the program runs it: it stops, and finds that slug. */
  method FindUniqueSlug(name: string, taken: seq<string>, lower: char -> char) returns (slug: string)
    ensures slug == UniqueSlug(name, taken, lower)
  {
    var base := Slugify(name, lower);
    if base !in taken {
      return base;
    }
    var i: nat := 2;
    while true
      invariant i >= 2 && forall j :: 2 <= j < i ==> Candidate(base, j) in taken
      invariant FirstFree(base, taken, 2) == FirstFree(base, taken, i)
      decreases |taken| + 1 - i
    {
      SuffixBound(base, taken, i);
      var candidate := base + "-" + Text(i, DECIMAL_BASE);
      if candidate !in taken {
        return candidate;
      }
      i := i + 1;
      SuffixBound(base, taken, i);
    }
  }

  lemma {:induction false} DecimalIsSlugChars(n: nat)
    ensures AllSlugChars(Text(n, DECIMAL_BASE))
    decreases n
  {
    if n >= 10 {
      DecimalIsSlugChars(n / 10);
    }
  }

  lemma CandidateIsSlug(base: string, i: nat)
    requires IsSlug(base)
    ensures IsSlug(Candidate(base, i))
  {
    DecimalIsSlugChars(i);
    HyphenJoinIsSlug(base, Text(i, DECIMAL_BASE));
  }

  /** A unique slug is itself a slug. */
  lemma UniqueSlugIsSlug(name: string, taken: seq<string>, lower: char -> char)
    ensures IsSlug(UniqueSlug(name, taken, lower))
  {
    var base, slug := Slugify(name, lower), UniqueSlug(name, taken, lower);
    SlugifyJoinsWords(name, lower);
    if slug != base {
      var i: nat :| slug == Candidate(base, i);
      CandidateIsSlug(base, i);
    }
  }
}
