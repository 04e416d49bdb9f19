/**
 What stands in a slug (app/api/routines.py): the letters and digits of the display name, in
 order, and a plain decimal number behind a slug that is taken.
 */
module SlugContents {
  import opened Slugs

  /** The letters a-z and the digits of a name, capitals made small, everything else left out. */
  function Spelled(name: string): string {
    if name == "" then ""
    else
      (if 'a' <= name[0] <= 'z' || '0' <= name[0] <= '9' then [name[0]]
       else if 'A' <= name[0] <= 'Z' then [(name[0] as int + 32) as char]
       else if name[0] == '\U{212A}' then "k"
       else if name[0] == '\U{0130}' then "i"
       else "") + Spelled(name[1..])
  }

  function WithoutUnderscores(s: string): string {
    if s == "" then "" else (if s[0] == '_' then "" else [s[0]]) + WithoutUnderscores(s[1..])
  }

  /** All the words of a text, run together. */
  function Flat(words: seq<string>): string {
    if words == [] then "" else words[0] + Flat(words[1..])
  }

  lemma {:induction false} WithoutUnderscoresConcat(a: string, b: string)
    ensures WithoutUnderscores(a + b) == WithoutUnderscores(a) + WithoutUnderscores(b)
  {
    if a == "" {
      assert a + b == b;
    } else {
      assert (a + b)[1..] == a[1..] + b;
      WithoutUnderscoresConcat(a[1..], b);
    }
  }

  lemma {:induction false} WordsHaveNoUnderscores(w: string)
    requires forall i :: 0 <= i < |w| ==> IsSlugChar(w[i])
    ensures WithoutUnderscores(w) == w
  {
    if w == "" {
    } else {
      assert IsSlugChar(w[0]);
      WordsHaveNoUnderscores(w[1..]);
    }
  }

  lemma {:induction false} JoinedWordsRunTogether(words: seq<string>)
    requires forall i :: 0 <= i < |words| ==> IsWord(words[i])
    ensures WithoutUnderscores(Join(words)) == Flat(words)
  {
    if words == [] {
    } else if |words| == 1 {
      WordsHaveNoUnderscores(words[0]);
      assert words[1..] == [];
    } else {
      WordsHaveNoUnderscores(words[0]);
      JoinedWordsRunTogether(words[1..]);
      WithoutUnderscoresConcat(words[0] + "_", Join(words[1..]));
      WithoutUnderscoresConcat(words[0], "_");
      assert WithoutUnderscores("_") == "";
    }
  }

  lemma {:induction false} SpelledConcat(a: string, b: string)
    ensures Spelled(a + b) == Spelled(a) + Spelled(b)
  {
    if a == "" {
      assert a + b == b;
    } else {
      assert (a + b)[1..] == a[1..] + b;
      SpelledConcat(a[1..], b);
    }
  }

  lemma {:induction false} WordsAreSpelled(w: string)
    requires forall i :: 0 <= i < |w| ==> IsSlugChar(w[i])
    ensures Spelled(w) == w
  {
    if w == "" {
    } else {
      assert IsSlugChar(w[0]);
      WordsAreSpelled(w[1..]);
    }
  }

  /** A text without capitals: the words in it are what it spells. */
  predicate Small(s: string) {
    forall i :: 0 <= i < |s| ==> !('A' <= s[i] <= 'Z') && s[i] != '\U{212A}' && s[i] != '\U{0130}'
  }

  lemma {:induction false} WordsAreWhatIsSpelled(s: string)
    requires Small(s)
    ensures Flat(Words(s)) == Spelled(s)
    decreases |s|
  {
    if s == "" {
    } else if !IsSlugChar(s[0]) {
      WordsAreWhatIsSpelled(s[1..]);
    } else {
      var w := Word(s);
      assert s == w + s[|w|..];
      WordsAreWhatIsSpelled(s[|w|..]);
      SpelledConcat(w, s[|w|..]);
      WordsAreSpelled(w);
      assert Words(s)[1..] == Words(s[|w|..]);
    }
  }

  lemma {:induction false} LowerIsSmall(s: string)
    ensures Small(Lower(s)) && Spelled(Lower(s)) == Spelled(s)
  {
    if s == "" {
    } else {
      LowerIsSmall(s[1..]);
      OneCharacter(s[0]);
      SmallConcat(LowerChar(s[0]), Lower(s[1..]));
      SpelledConcat(LowerChar(s[0]), Lower(s[1..]));
      SpelledConcat([s[0]], s[1..]);
      assert [s[0]] + s[1..] == s;
    }
  }

  lemma {:induction false} SmallConcat(a: string, b: string)
    requires Small(a) && Small(b)
    ensures Small(a + b)
  {}

  lemma {:induction false} OneCharacter(c: char)
    ensures Small(LowerChar(c)) && Spelled(LowerChar(c)) == Spelled([c])
  {
    var small := LowerChar(c);
    assert [c][1..] == "" && (|small| > 0 ==> Spelled(small[1..]) == if |small| == 2 then Spelled([small[1]]) else "");
  }

  /** The slug of a name, read without its underscores, spells the name; a name that spells nothing gives "routine". */
  lemma {:induction false} SlugsSpellTheName(name: string)
    ensures if Spelled(name) == "" then Slugify(name) == "routine"
            else WithoutUnderscores(Slugify(name)) == Spelled(name)
  {
    var words := Words(Lower(name));
    SlugIsTheJoinedWords(name);
    LowerIsSmall(name);
    WordsAreWhatIsSpelled(Lower(name));
    WordsAreWords(Lower(name));
    JoinedWordsRunTogether(words);
    if words != [] {
      assert IsWord(words[0]);
    }
  }

  /** A number behind a slug is written in decimal digits. */
  lemma {:induction false} NumbersAreDecimal(n: nat)
    ensures n < 10 ==> Decimal(n) == [("0123456789")[n]]
    ensures n >= 10 ==> Decimal(n) == Decimal(n / 10) + Decimal(n % 10)
  {}

  /** The first slug tried when the bare one is taken ends in "_2". */
  lemma {:induction false} TheSecondIsNumberedTwo(existing: set<string>, name: string, slug: string)
    requires IsUniqueSlug(existing, name, slug) && Slugify(name) in existing
    ensures slug == Slugify(name) + "_2" <==> Slugify(name) + "_2" !in existing
  {
    var base := Slugify(name);
    NumbersAreDecimal(2);
    assert Suffixed(base, 2) == base + "_2";
    var i :| 2 <= i <= |existing| + 1 && slug == Suffixed(base, i) && Tried(base, i) <= existing;
    if i > 2 {
      assert Suffixed(base, 2) in Tried(base, i);
    }
  }
}
