/**
 Routine slugs (app/api/routines.py): turning a display name into a node-facing key, and
 numbering a key that is already taken.
 */
module Slugs {
  import opened Strings

  predicate IsSlugChar(c: char) {
    'a' <= c <= 'z' || '0' <= c <= '9'
  }

  // ---------------------------------------------------------------- the string operations used

  /**
   Lower-casing, as far as a slug can see it: the ASCII capitals, and the only two other
   characters whose lower case contains an ASCII letter (the Kelvin sign and the dotted
   capital I).  Every other character stays outside a-z and 0-9 either way.
   */
  function LowerChar(c: char): string {
    if 'A' <= c <= 'Z' then [(c as int + 32) as char]
    else if c == '\U{212A}' then "k"
    else if c == '\U{0130}' then "i\U{0307}"
    else [c]
  }

  function Lower(s: string): string {
    if s == "" then "" else LowerChar(s[0]) + Lower(s[1..])
  }

  predicate IsSpace(c: char) {
    c in {' ', '\t', '\n', '\r', '\U{000B}', '\U{000C}', '\U{001C}', '\U{001D}', '\U{001E}', '\U{001F}',
          '\U{0085}', '\U{00A0}', '\U{1680}', '\U{2028}', '\U{2029}', '\U{202F}', '\U{205F}', '\U{3000}'}
    || '\U{2000}' <= c <= '\U{200A}'
  }

  /** What is left after the separators at the front. */
  function DropSeparators(s: string): (r: string)
    ensures |r| <= |s|
    ensures s != "" && !IsSlugChar(s[0]) ==> |r| < |s|
    ensures r != "" ==> IsSlugChar(r[0])
  {
    if s != "" && !IsSlugChar(s[0]) then DropSeparators(s[1..]) else s
  }

  /** Replace every maximal run of separators by one underscore. */
  function Squeeze(s: string): string
    decreases |s|
  {
    if s == "" then ""
    else if IsSlugChar(s[0]) then [s[0]] + Squeeze(s[1..])
    else "_" + Squeeze(DropSeparators(s))
  }

  function Slugify(name: string): string {
    var slug := Trim(Squeeze(Lower(Trim(name, IsSpace))), c => c == '_');
    if slug == "" then "routine" else slug
  }

  // ---------------------------------------------------------------- what a slug is

  /** The leading run of slug characters. */
  function Word(s: string): (w: string)
    ensures |w| <= |s| && w == s[..|w|]
    ensures forall i :: 0 <= i < |w| ==> IsSlugChar(w[i])
    ensures |w| < |s| ==> !IsSlugChar(s[|w|])
    ensures s != "" && IsSlugChar(s[0]) ==> w != ""
  {
    if s != "" && IsSlugChar(s[0]) then [s[0]] + Word(s[1..]) else ""
  }

  /** The maximal runs of slug characters, in order. */
  function Words(s: string): seq<string>
    decreases |s|
  {
    if s == "" then []
    else if !IsSlugChar(s[0]) then Words(s[1..])
    else [Word(s)] + Words(s[|Word(s)|..])
  }

  function Join(words: seq<string>): string {
    if words == [] then ""
    else if |words| == 1 then words[0]
    else words[0] + "_" + Join(words[1..])
  }

  /** Alphanumeric runs joined by single underscores, and none at the ends. */
  ghost predicate Canonical(s: string) {
    && s != "" && s[0] != '_' && s[|s| - 1] != '_'
    && (forall i :: 0 <= i < |s| ==> IsSlugChar(s[i]) || s[i] == '_')
    && (forall i :: 0 <= i < |s| - 1 ==> s[i] != '_' || s[i + 1] != '_')
  }

  ghost predicate IsWord(w: string) {
    w != "" && forall i :: 0 <= i < |w| ==> IsSlugChar(w[i])
  }

  ghost predicate AllSeparators(s: string) {
    forall i :: 0 <= i < |s| ==> !IsSlugChar(s[i])
  }

  lemma {:induction false} SqueezeWord(w: string, rest: string)
    requires forall i :: 0 <= i < |w| ==> IsSlugChar(w[i])
    ensures Squeeze(w + rest) == w + Squeeze(rest)
  {
    if w == "" {
      assert w + rest == rest;
    } else {
      SqueezeWord(w[1..], rest);
      assert (w + rest)[1..] == w[1..] + rest;
    }
  }

  lemma {:induction false} WordsSkipSeparators(s: string)
    ensures Words(DropSeparators(s)) == Words(s)
  {
    if s != "" && !IsSlugChar(s[0]) {
      WordsSkipSeparators(s[1..]);
    }
  }

  /** Squeezing a text that starts with a word joins its words, and keeps one underscore of a separated end. */
  lemma {:induction false} SqueezeJoinsWords(s: string)
    requires s == "" || IsSlugChar(s[0])
    ensures Squeeze(s) == Join(Words(s)) || Squeeze(s) == Join(Words(s)) + "_"
    ensures s != "" ==> Words(s) != []
    decreases |s|
  {
    if s == "" {
    } else {
      var w := Word(s);
      var rest := s[|w|..];
      assert s == w + rest;
      SqueezeWord(w, rest);
      if rest != "" {
        var tail := DropSeparators(rest);
        WordsSkipSeparators(rest);
        SqueezeJoinsWords(tail);
        assert Words(s) == [w] + Words(tail);
        assert Words(s)[1..] == Words(tail);
        if tail == "" {
          assert Squeeze(s) == w + "_";
        } else {
          assert Squeeze(s) == w + "_" + Squeeze(tail);
          assert w + "_" + (Join(Words(tail)) + "_") == Join(Words(s)) + "_";
        }
      } else {
        assert Words(s) == [w];
        assert w + Squeeze("") == w;
      }
    }
  }

  lemma {:induction false} WordsAreWords(s: string)
    ensures forall i :: 0 <= i < |Words(s)| ==> IsWord(Words(s)[i])
    decreases |s|
  {
    if s == "" {
    } else {
      if IsSlugChar(s[0]) {
        WordsAreWords(s[|Word(s)|..]);
      } else {
        WordsAreWords(s[1..]);
      }
    }
  }

  lemma {:induction false} JoinIsCanonical(words: seq<string>)
    requires words != []
    requires forall i :: 0 <= i < |words| ==> IsWord(words[i])
    ensures Canonical(Join(words))
  {
    var w := words[0];
    assert IsWord(w) && IsSlugChar(w[0]) && IsSlugChar(w[|w| - 1]);
    if |words| > 1 {
      JoinIsCanonical(words[1..]);
      var tail := Join(words[1..]);
      var s := w + "_" + tail;
      assert forall i :: 0 <= i < |s| ==> s[i] == if i < |w| then w[i] else if i == |w| then '_' else tail[i - |w| - 1];
    }
  }

  lemma {:induction false} TrimCore(core: string, before: string, after: string)
    requires before in {"", "_"} && after in {"", "_"}
    requires core == "" || (core[0] != '_' && core[|core| - 1] != '_')
    ensures Trim(before + core + after, c => c == '_') == core
  {
    var drop := (c: char) => c == '_';
    var s := before + core + after;
    if core == "" {
      assert s == before + after;
      if s == "__" {
        assert s[1..] == "_" && s[1..][1..] == "";
      }
    } else {
      if before == "" {
        assert s == core + after;
      } else {
        assert s[1..] == core + after;
      }
      assert TrimLeft(core + after, drop) == core + after;
      assert TrimLeft(s, drop) == core + after;
      if after == "_" {
        assert (core + after)[..|core|] == core;
      } else {
        assert core + after == core;
      }
      assert TrimRight(core + after, drop) == core;
    }
  }

  lemma {:induction false} NoWords(s: string)
    requires AllSeparators(s)
    ensures Words(s) == []
  {
    if s == "" {
    } else {
      NoWords(s[1..]);
    }
  }

  lemma {:induction false} WordsBefore(s: string, after: string)
    requires AllSeparators(after)
    ensures Words(s + after) == Words(s)
    decreases |s|
  {
    var all := s + after;
    if s == "" {
      assert all == after;
      NoWords(after);
    } else if IsSlugChar(s[0]) {
      WordOfPadded(s, after);
      assert all[|Word(s)|..] == s[|Word(s)|..] + after;
      WordsBefore(s[|Word(s)|..], after);
    } else {
      assert all[1..] == s[1..] + after;
      WordsBefore(s[1..], after);
    }
  }

  lemma {:induction false} WordsAfter(before: string, s: string)
    requires AllSeparators(before)
    ensures Words(before + s) == Words(s)
  {
    if before == "" {
      assert before + s == s;
    } else {
      assert (before + s)[1..] == before[1..] + s;
      WordsAfter(before[1..], s);
    }
  }

  lemma {:induction false} WordOfPadded(s: string, after: string)
    requires AllSeparators(after)
    ensures Word(s + after) == Word(s)
  {
    if s == "" {
      assert s + after == after;
    } else {
      assert (s + after)[1..] == s[1..] + after;
      WordOfPadded(s[1..], after);
    }
  }

  lemma {:induction false} LowerConcat(a: string, b: string)
    ensures Lower(a + b) == Lower(a) + Lower(b)
  {
    if a == "" {
      assert a + b == b;
    } else {
      assert (a + b)[1..] == a[1..] + b;
      LowerConcat(a[1..], b);
    }
  }

  lemma {:induction false} LowerOfSpaces(s: string)
    requires forall i :: 0 <= i < |s| ==> IsSpace(s[i])
    ensures AllSeparators(Lower(s))
  {
    if s == "" {
    } else {
      assert IsSpace(s[0]);
      LowerOfSpaces(s[1..]);
    }
  }

  lemma {:induction false} StripKeepsWords(name: string)
    ensures Words(Lower(Trim(name, IsSpace))) == Words(Lower(name))
  {
    var before := TrimLeftSplits(name, IsSpace);
    var after := TrimRightSplits(TrimLeft(name, IsSpace), IsSpace);
    var core := Trim(name, IsSpace);
    assert name == before + core + after;
    LowerConcat(before + core, after);
    LowerConcat(before, core);
    LowerOfSpaces(before);
    LowerOfSpaces(after);
    WordsBefore(Lower(before) + Lower(core), Lower(after));
    WordsAfter(Lower(before), Lower(core));
  }

  /** Squeezing any text joins its words, with at most one underscore on either side. */
  lemma {:induction false} SqueezeShape(s: string) returns (before: string, after: string)
    ensures before in {"", "_"} && after in {"", "_"}
    ensures Squeeze(s) == before + Join(Words(s)) + after
  {
    var body := DropSeparators(s);
    WordsSkipSeparators(s);
    SqueezeJoinsWords(body);
    var core := Join(Words(s));
    after := if Squeeze(body) == core then "" else "_";
    assert Squeeze(body) == core + after;
    if s != "" && !IsSlugChar(s[0]) {
      before := "_";
      assert "_" + (core + after) == "_" + core + after;
    } else {
      before := "";
      assert body == s && "" + core + after == core + after;
    }
  }

  /**
   The slug of a name is the alphanumeric runs of its lower case, joined by single
   underscores; a name without any gives "routine".
   */
  lemma {:induction false} SlugIsTheJoinedWords(name: string)
    ensures Slugify(name) == if Words(Lower(name)) == [] then "routine" else Join(Words(Lower(name)))
  {
    var s := Lower(Trim(name, IsSpace));
    StripKeepsWords(name);
    var before, after := SqueezeShape(s);
    WordsAreWords(s);
    if Words(s) != [] {
      JoinIsCanonical(Words(s));
    }
    TrimCore(Join(Words(s)), before, after);
  }

  /** Every slug is non-empty and canonical. */
  lemma {:induction false} SlugsAreCanonical(name: string)
    ensures Canonical(Slugify(name))
  {
    SlugIsTheJoinedWords(name);
    var words := Words(Lower(name));
    WordsAreWords(Lower(name));
    if words != [] {
      JoinIsCanonical(words);
    } else {
      FallbackIsCanonical(Slugify(name));
    }
  }

  lemma {:induction false} FallbackIsCanonical(slug: string)
    requires slug == "routine"
    ensures Canonical(slug)
  {}

  lemma {:induction false} LowerOfCanonical(s: string)
    requires forall i :: 0 <= i < |s| ==> IsSlugChar(s[i]) || s[i] == '_'
    ensures Lower(s) == s
  {
    if s == "" {
    } else {
      LowerOfCanonical(s[1..]);
    }
  }

  lemma {:induction false} CanonicalTail(s: string)
    requires Canonical(s) && |Word(s)| < |s|
    ensures s[|Word(s)|] == '_' && Canonical(s[|Word(s)| + 1..])
  {
    var n := |Word(s)|;
    var tail := s[n + 1..];
    assert s[n] == '_' && n + 1 < |s|;
    assert forall i :: 0 <= i < |tail| ==> tail[i] == s[n + 1 + i];
    forall i | 0 <= i < |tail| - 1 ensures tail[i] != '_' || tail[i + 1] != '_' {
      assert tail[i] == s[n + 1 + i];
    }
  }

  /** A word, an underscore and more words. */
  lemma {:induction false} FirstWord(s: string, w: string, tail: string)
    requires s != "" && IsSlugChar(s[0]) && w == Word(s) && s == w + ("_" + tail)
    ensures Words(s) == [w] + Words(tail)
  {
    var rest := "_" + tail;
    assert s[|w|..] == rest && rest[1..] == tail;
  }

  lemma {:induction false} OnlyWord(s: string)
    requires s != "" && IsSlugChar(s[0]) && |Word(s)| == |s|
    ensures Words(s) == [s] && Join([s]) == s
  {
    assert Word(s) == s && s[|s|..] == "";
  }

  lemma {:induction false} JoinFirst(w: string, words: seq<string>)
    requires words != []
    ensures Join([w] + words) == w + ("_" + Join(words))
  {
    assert ([w] + words)[1..] == words;
    assert w + "_" + Join(words) == w + ("_" + Join(words));
  }

  /** A text whose separators are single underscores between words is the join of its words. */
  lemma {:induction false} JoinUndoesWords(s: string)
    requires Canonical(s)
    ensures Words(s) != [] && Join(Words(s)) == s
    decreases |s|
  {
    var w := Word(s);
    if |w| < |s| {
      CanonicalTail(s);
      var tail := s[|w| + 1..];
      assert s == w + ("_" + tail);
      FirstWord(s, w, tail);
      JoinUndoesWords(tail);
      JoinFirst(w, Words(tail));
    } else {
      OnlyWord(s);
    }
  }

  /** Slugs are exactly the fixed points of slugifying; in particular slugifying twice changes nothing. */
  lemma {:induction false} SlugifyFixesExactlyTheCanonical(s: string)
    ensures Slugify(s) == s <==> Canonical(s)
    ensures Slugify(Slugify(s)) == Slugify(s)
  {
    SlugsAreCanonical(s);
    CanonicalIsFixed(Slugify(s));
    if Canonical(s) {
      CanonicalIsFixed(s);
    }
  }

  lemma {:induction false} CanonicalIsFixed(s: string)
    requires Canonical(s)
    ensures Slugify(s) == s
  {
    LowerOfCanonical(s);
    SlugIsTheJoinedWords(s);
    JoinUndoesWords(s);
  }

  // ---------------------------------------------------------------- numbered slugs

  function Decimal(n: nat): (s: string)
    ensures s != "" && forall i :: 0 <= i < |s| ==> '0' <= s[i] <= '9'
  {
    var digit := [(n % 10 + '0' as int) as char];
    if n < 10 then digit else Decimal(n / 10) + digit
  }

  function ParseDecimal(s: string): int {
    if s == "" then 0 else ParseDecimal(s[..|s| - 1]) * 10 + (s[|s| - 1] as int - '0' as int)
  }

  lemma {:induction false} DecimalRoundTrip(n: nat)
    ensures ParseDecimal(Decimal(n)) == n
  {
    if n >= 10 {
      DecimalRoundTrip(n / 10);
      assert Decimal(n)[..|Decimal(n)| - 1] == Decimal(n / 10);
    } else {
      assert Decimal(n)[..0] == "";
    }
  }

  function Suffixed(base: string, i: nat): string {
    base + "_" + Decimal(i)
  }

  /** Numbering keeps a slug canonical, never gives the base back, and different numbers give different slugs. */
  lemma {:induction false} SuffixedIsCanonicalAndInjective(base: string, i: nat, j: nat)
    requires Canonical(base)
    ensures Canonical(Suffixed(base, i)) && Suffixed(base, i) != base
    ensures Suffixed(base, i) == Suffixed(base, j) ==> i == j
  {
    var s, d := Suffixed(base, i), Decimal(i);
    assert forall k :: 0 <= k < |s| ==>
        s[k] == if k < |base| then base[k] else if k == |base| then '_' else d[k - |base| - 1];
    assert |s| > |base|;
    if Suffixed(base, i) == Suffixed(base, j) {
      assert Suffixed(base, i)[|base| + 1..] == Decimal(i) && Suffixed(base, j)[|base| + 1..] == Decimal(j);
      DecimalRoundTrip(i);
      DecimalRoundTrip(j);
    }
  }

  // ---------------------------------------------------------------- a slug that is free

  /** The slugs numbered 2 up to, but not including, n. */
  function Tried(base: string, n: nat): set<string> {
    set i | 2 <= i < n :: Suffixed(base, i)
  }

  lemma {:induction false} TriedCount(base: string, n: nat)
    requires Canonical(base) && n >= 2
    ensures |Tried(base, n)| == n - 2 && base !in Tried(base, n)
  {
    if n == 2 {
      assert Tried(base, n) == {};
    } else {
      TriedCount(base, n - 1);
      assert Tried(base, n) == Tried(base, n - 1) + {Suffixed(base, n - 1)};
      forall i | 2 <= i < n
        ensures Suffixed(base, i) != base && (i != n - 1 ==> Suffixed(base, i) != Suffixed(base, n - 1))
      {
        SuffixedIsCanonicalAndInjective(base, i, n - 1);
      }
    }
  }

  /** What "the unique slug for a name" means among the slugs already there. */
  ghost predicate IsUniqueSlug(existing: set<string>, name: string, slug: string) {
    var base := Slugify(name);
    && slug !in existing
    && (slug == base
        || (base in existing
            && exists i :: 2 <= i <= |existing| + 1 && slug == Suffixed(base, i) && Tried(base, i) <= existing))
  }

  /** The search over suffixes ends within |existing| + 1 numbers, by the pigeonhole principle. */
  method UniqueSlug(existing: set<string>, name: string) returns (slug: string)
    ensures IsUniqueSlug(existing, name, slug) && Canonical(slug)
    ensures Slugify(name) !in existing ==> slug == Slugify(name)
  {
    var base := Slugify(name);
    SlugsAreCanonical(name);
    if base !in existing {
      return base;
    }
    var i := 2;
    TriedCount(base, i);
    while Suffixed(base, i) in existing
      invariant i >= 2 && Tried(base, i) <= existing
      invariant i <= |existing| + 1
      decreases |existing| + 2 - i
    {
      i := i + 1;
      assert Tried(base, i) == Tried(base, i - 1) + {Suffixed(base, i - 1)};
      PigeonHole(existing, base, i);
    }
    SuffixedIsCanonicalAndInjective(base, i, i);
    return Suffixed(base, i);
  }

  /** Taken suffixes 2..n-1 and the taken base are n - 1 different slugs. */
  lemma {:induction false} PigeonHole(existing: set<string>, base: string, n: nat)
    requires Canonical(base) && base in existing && n >= 2 && Tried(base, n) <= existing
    ensures n <= |existing| + 1
  {
    TriedCount(base, n);
    SubsetCount(Tried(base, n) + {base}, existing);
  }

  lemma {:induction false} SubsetCount<T>(a: set<T>, b: set<T>)
    requires a <= b
    ensures |a| <= |b|
  {
    if a == {} {
    } else {
      var x :| x in a;
      SubsetCount(a - {x}, b - {x});
    }
  }

  /** The unique slug is determined: the bare slug if free, else the one with the least free number. */
  lemma {:induction false} UniqueSlugIsDetermined(existing: set<string>, name: string, a: string, b: string)
    requires IsUniqueSlug(existing, name, a) && IsUniqueSlug(existing, name, b)
    ensures a == b
  {
    var base := Slugify(name);
    if base in existing {
      var i :| 2 <= i <= |existing| + 1 && a == Suffixed(base, i) && Tried(base, i) <= existing;
      var j :| 2 <= j <= |existing| + 1 && b == Suffixed(base, j) && Tried(base, j) <= existing;
      assert forall k :: 2 <= k < j ==> Suffixed(base, k) in Tried(base, j);
      assert forall k :: 2 <= k < i ==> Suffixed(base, k) in Tried(base, i);
    }
  }
}
