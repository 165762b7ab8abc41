/** The slug normaliser of app/utils/slug.py. */
module Slugs {

  predicate IsSlugChar(c: char) {
    'a' <= c <= 'z' || '0' <= c <= '9' || c == '-' || c == '.'
  }

  /** `str.lower`, on ASCII letters. */
  function Lower(text: string): (r: string)
    ensures (forall c :: c in text ==> IsSlugChar(c)) ==> r == text
  {
    assert forall i :: 0 <= i < |text| ==> text[i] in text;
    seq(|text|, i requires 0 <= i < |text| =>
      if 'A' <= text[i] <= 'Z' then (text[i] as int + 32) as char else text[i])
  }

  /** Spaces and underscores become hyphens. */
  function Hyphenate(s: string): (r: string)
    ensures (forall c :: c in s ==> IsSlugChar(c)) ==> r == s
  {
    assert forall i :: 0 <= i < |s| ==> s[i] in s;
    seq(|s|, i requires 0 <= i < |s| => if s[i] == ' ' || s[i] == '_' then '-' else s[i])
  }

  /** Drops every character outside the slug alphabet. */
  function Keep(s: string): (r: string)
    ensures forall c :: c in r <==> c in s && IsSlugChar(c)
    ensures (forall c :: c in s ==> IsSlugChar(c)) ==> r == s
  {
    if s == "" then ""
    else if IsSlugChar(s[0]) then
      assert s == [s[0]] + s[1..];
      [s[0]] + Keep(s[1..])
    else
      assert s == [s[0]] + s[1..];
      assert s[0] in s;
      Keep(s[1..])
  }

  /** Each run of hyphens becomes one. */
  function Collapse(s: string): string {
    if s == "" then ""
    else if s[0] == '-' && 1 < |s| && s[1] == '-' then Collapse(s[1..])
    else [s[0]] + Collapse(s[1..])
  }

  function StripLeft(s: string): string {
    if s != "" && s[0] == '-' then StripLeft(s[1..]) else s
  }

  function StripRight(s: string): string {
    if s != "" && s[|s| - 1] == '-' then StripRight(s[..|s| - 1]) else s
  }

  /** Everything `generate_slug` does after lower-casing. */
  function Normalise(lowered: string, maxLength: nat): string {
    var slug := StripRight(StripLeft(Collapse(Keep(Hyphenate(lowered)))));
    if |slug| > maxLength then StripRight(slug[..maxLength]) else slug
  }

  const DEFAULT_LENGTH: nat := 100

  function GenerateSlug(text: string): string {
    Normalise(Lower(text), DEFAULT_LENGTH)
  }

  /** The normal form: slug alphabet, no hyphen at either end, no two in a row. */
  ghost predicate Normal(s: string) {
    && (forall i :: 0 <= i < |s| ==> IsSlugChar(s[i]))
    && (s != "" ==> s[0] != '-' && s[|s| - 1] != '-')
    && (forall i :: 0 <= i < |s| - 1 ==> s[i] != '-' || s[i + 1] != '-')
  }

  // ----- Reference definition: the hyphen-free words of the text, joined by single hyphens

  function Words(s: string): (ws: seq<string>)
    ensures s != "" && s[0] != '-' ==> ws != []
    ensures forall i :: 0 <= i < |ws| ==> ws[i] != "" && '-' !in ws[i]
    ensures forall i, c :: 0 <= i < |ws| && c in ws[i] ==> c in s
  {
    if s == "" then []
    else
      assert s == [s[0]] + s[1..];
      var ws := Words(s[1..]);
      if s[0] == '-' then ws
      else if 1 < |s| && s[1] != '-' then [[s[0]] + ws[0]] + ws[1..]
      else [[s[0]]] + ws
  }

  function Join(ws: seq<string>): string {
    if ws == [] then "" else if |ws| == 1 then ws[0] else ws[0] + "-" + Join(ws[1..])
  }

  lemma StripRightCons(c: char, s: string)
    ensures StripRight([c] + s) ==
            if StripRight(s) == "" && c == '-' then "" else [c] + StripRight(s)
  {
    if s != "" {
      assert ([c] + s)[..|s|] == [c] + s[..|s| - 1];
      if s[|s| - 1] == '-' { StripRightCons(c, s[..|s| - 1]); }
    } else {
      assert [c] + s == [c];
    }
  }

  lemma {:induction false} CollapseHead(s: string)
    ensures Collapse(s) != "" && Collapse(s)[0] == '-' ==> |Collapse(s)| == 1 || Collapse(s)[1] != '-'
    ensures s != "" ==> Collapse(s) != "" && Collapse(s)[0] == s[0]
  {
    if s != "" { CollapseHead(s[1..]); }
  }

  lemma JoinCons(w: string, ws: seq<string>)
    ensures Join([w] + ws) == if ws == [] then w else w + "-" + Join(ws)
  {
    assert ([w] + ws)[1..] == ws;
  }

  lemma JoinGrown(c: char, ws: seq<string>)
    requires ws != []
    ensures Join([[c] + ws[0]] + ws[1..]) == [c] + Join(ws)
  {
    hide Join;
    var rest := Join(ws[1..]);
    JoinCons([c] + ws[0], ws[1..]);
    JoinCons(ws[0], ws[1..]);
    assert ws == [ws[0]] + ws[1..];
    assert [c] + ws[0] + "-" + rest == [c] + (ws[0] + "-" + rest);
  }

  /** The words joined, with the hyphen that a leading run of hyphens leaves. */
  function Joined(s: string): string {
    (if s != "" && s[0] == '-' && Words(s) != [] then "-" else "") + Join(Words(s))
  }

  lemma JoinedCons(s: string)
    requires s != "" && s[0] != '-'
    ensures Joined(s) == [s[0]] + Joined(s[1..])
  {
    hide Join;
    var ws := Words(s[1..]);
    if 1 < |s| && s[1] != '-' { JoinGrown(s[0], ws); } else { JoinCons([s[0]], ws); NothingJoined(); }
  }

  lemma NothingJoined()
    ensures Join([]) == ""
  {
  }

  lemma JoinedEmpty(s: string)
    ensures Joined(s) == "" <==> Words(s) == []
  {
    var ws := Words(s);
    if ws != [] {
      assert ws == [ws[0]] + ws[1..];
      JoinCons(ws[0], ws[1..]);
    }
  }

  lemma {:induction false} CollapsedWords(s: string)
    ensures StripRight(Collapse(s)) == Joined(s)
  {
    if s != "" {
      hide StripRight, Joined;
      CollapsedWords(s[1..]);
      StripRightCons(s[0], Collapse(s[1..]));
      if s[0] != '-' { JoinedCons(s); } else { JoinedHyphen(s); }
    }
  }

  lemma JoinedHyphen(s: string)
    requires s != "" && s[0] == '-'
    ensures Joined(s) ==
            if Joined(s[1..]) == "" then "" else if s[1] == '-' then Joined(s[1..]) else "-" + Joined(s[1..])
  {
    JoinedEmpty(s[1..]);
  }

  /** The pipeline computes the reference, before truncation. */
  lemma PipelineIsJoin(s: string)
    ensures StripRight(StripLeft(Collapse(s))) == Join(Words(s))
  {
    CollapsedWords(s);
    CollapseHead(s);
    var c := Collapse(s);
    if c != "" && c[0] == '-' {
      assert StripLeft(c) == c[1..];
      assert c == ['-'] + c[1..];
      StripRightCons('-', c[1..]);
    }
  }

  lemma {:induction false} JoinNormal(ws: seq<string>)
    requires forall i :: 0 <= i < |ws| ==> ws[i] != "" && '-' !in ws[i]
    requires forall i, c :: 0 <= i < |ws| && c in ws[i] ==> IsSlugChar(c)
    ensures Normal(Join(ws))
    ensures ws != [] ==> Join(ws) != ""
  {
    if 1 < |ws| {
      JoinNormal(ws[1..]);
      var a, b := ws[0], Join(ws[1..]);
      assert Join(ws) == a + "-" + b;
      assert forall i :: 0 <= i < |a| ==> a[i] in a;
    } else if |ws| == 1 {
      var a := ws[0];
      assert forall i :: 0 <= i < |a| ==> a[i] in a;
    }
  }

  lemma {:induction false} NormalIsJoin(s: string)
    requires forall i :: 0 <= i < |s| - 1 ==> s[i] != '-' || s[i + 1] != '-'
    requires s != "" ==> s[|s| - 1] != '-'
    ensures s == (if s != "" && s[0] == '-' then "-" else "") + Join(Words(s))
    ensures s != "" ==> Words(s) != []
  {
    if s != "" {
      var rest := s[1..];
      assert forall i :: 0 <= i < |rest| ==> rest[i] == s[i + 1];
      NormalIsJoin(rest);
      if s[0] != '-' && rest != "" && rest[0] != '-' {
        var ws := Words(rest);
        assert ([[s[0]] + ws[0]] + ws[1..])[1..] == ws[1..];
      } else if s[0] != '-' {
        assert ([[s[0]]] + Words(rest))[1..] == Words(rest);
      }
    }
  }

  /** The words that survive in a slug of `text`. */
  function SlugWords(text: string): seq<string> {
    Words(Keep(Hyphenate(text)))
  }

  /** What the slug is: the kept words joined by single hyphens; when that is too long,
      its first `maxLength` characters, less a hyphen left at the cut. */
  lemma SlugIsJoinedWords(text: string, maxLength: nat)
    ensures var whole, r := Join(SlugWords(text)), Normalise(text, maxLength);
            && r <= whole && |r| <= maxLength
            && (|whole| <= maxLength ==> r == whole)
            && (|whole| > maxLength ==>
                 r == if 0 < maxLength && whole[maxLength - 1] == '-' then whole[..maxLength - 1]
                      else whole[..maxLength])
  {
    var kept := Keep(Hyphenate(text));
    PipelineIsJoin(kept);
    JoinNormal(Words(kept));
    var whole := Join(Words(kept));
    if |whole| > maxLength && 0 < maxLength {
      var cut := whole[..maxLength];
      assert cut[..maxLength - 1] == whole[..maxLength - 1];
      if cut[maxLength - 1] == '-' {
        var shorter := whole[..maxLength - 1];
        assert maxLength == 1 || shorter[maxLength - 2] != '-';
        assert StripRight(cut) == StripRight(shorter) == shorter;
      }
    }
  }

  /** Every slug is in normal form and within the length limit. */
  lemma SlugNormalForm(text: string, maxLength: nat)
    ensures Normal(Normalise(text, maxLength)) && |Normalise(text, maxLength)| <= maxLength
  {
    JoinNormal(SlugWords(text));
    SlugIsJoinedWords(text, maxLength);
    var whole, r := Join(SlugWords(text)), Normalise(text, maxLength);
    if |whole| > maxLength && r != "" && |r| < maxLength {
      assert whole[maxLength - 1] == '-' && whole[maxLength - 2] != '-';
    }
  }

  /** A short normal form is its own slug, under any lower-casing that fixes the alphabet. */
  lemma SlugFixpoint(s: string, maxLength: nat)
    requires Normal(s) && |s| <= maxLength
    ensures Normalise(s, maxLength) == s
    ensures maxLength == DEFAULT_LENGTH ==> GenerateSlug(s) == s
  {
    assert forall c :: c in s ==> IsSlugChar(c);
    assert Lower(s) == s;
    PipelineIsJoin(s);
    NormalIsJoin(s);
  }

  /** `generate_slug` is idempotent, and its values are exactly the short normal forms. */
  lemma SlugImage(s: string, maxLength: nat)
    ensures (exists text :: Normalise(text, maxLength) == s) <==> Normal(s) && |s| <= maxLength
    ensures Normalise(Normalise(s, maxLength), maxLength) == Normalise(s, maxLength)
    ensures GenerateSlug(GenerateSlug(s)) == GenerateSlug(s)
  {
    if text :| Normalise(text, maxLength) == s { SlugNormalForm(text, maxLength); }
    if Normal(s) && |s| <= maxLength { SlugFixpoint(s, maxLength); }
    SlugNormalForm(s, maxLength);
    SlugFixpoint(Normalise(s, maxLength), maxLength);
    SlugNormalForm(Lower(s), DEFAULT_LENGTH);
    SlugFixpoint(GenerateSlug(s), DEFAULT_LENGTH);
  }

  // ----- What the normaliser does to a text, said of `generate_slug` alone

  function Slug(text: string, maxLength: nat): string {
    Normalise(Lower(text), maxLength)
  }

  function Image(text: string): string {
    Keep(Hyphenate(Lower(text)))
  }

  lemma {:induction false} KeepConcat(a: string, b: string)
    ensures Keep(a + b) == Keep(a) + Keep(b)
  {
    if a == "" {
      assert a + b == b;
    } else {
      assert (a + b)[1..] == a[1..] + b;
      KeepConcat(a[1..], b);
    }
  }

  lemma ImageConcat(a: string, b: string)
    ensures Image(a + b) == Image(a) + Image(b)
  {
    assert Lower(a + b) == Lower(a) + Lower(b);
    assert Hyphenate(Lower(a) + Lower(b)) == Hyphenate(Lower(a)) + Hyphenate(Lower(b));
    KeepConcat(Hyphenate(Lower(a)), Hyphenate(Lower(b)));
  }

  lemma ImageAround(a: string, mid: string, b: string)
    ensures Image(a + mid + b) == Image(a) + Image(mid) + Image(b)
  {
    ImageConcat(a + mid, b);
    ImageConcat(a, mid);
  }

  predicate IsSeparator(c: char) { c == ' ' || c == '_' || c == '-' }

  /** A character that stands for something in a slug. */
  predicate IsKnown(c: char) {
    'a' <= c <= 'z' || 'A' <= c <= 'Z' || '0' <= c <= '9' || c == '.' || IsSeparator(c)
  }

  lemma ImageOne(c: char)
    ensures IsSeparator(c) ==> Image([c]) == "-"
    ensures !IsKnown(c) ==> Image([c]) == ""
  {
    assert Lower([c]) == if 'A' <= c <= 'Z' then [(c as int + 32) as char] else [c];
    if IsSeparator(c) { assert Hyphenate([c]) == "-"; }
    if !IsKnown(c) { assert Hyphenate([c]) == [c]; }
  }

  /** Characters outside letters, digits, '.', '-', ' ' and '_' do not count. */
  lemma UnknownDropped(a: string, c: char, b: string, maxLength: nat)
    requires !IsKnown(c)
    ensures Slug(a + [c] + b, maxLength) == Slug(a + b, maxLength)
  {
    hide Lower, Hyphenate, Keep;
    ImageAround(a, [c], b);
    ImageConcat(a, b);
    ImageOne(c);
    assert Image(a) + "" + Image(b) == Image(a) + Image(b);
  }

  /** A space, an underscore and a hyphen are the same. */
  lemma SeparatorsAlike(a: string, c: char, b: string, maxLength: nat)
    requires IsSeparator(c)
    ensures Slug(a + [c] + b, maxLength) == Slug(a + "-" + b, maxLength)
  {
    hide Lower, Hyphenate, Keep;
    ImageAround(a, [c], b);
    ImageAround(a, "-", b);
    ImageOne(c);
    ImageOne('-');
  }

  predicate SameApartFromCase(a: string, b: string) {
    |a| == |b| && forall i :: 0 <= i < |a| ==>
      || a[i] == b[i]
      || ('A' <= a[i] <= 'Z' && b[i] as int == a[i] as int + 32)
      || ('A' <= b[i] <= 'Z' && a[i] as int == b[i] as int + 32)
  }

  lemma CaseIgnored(a: string, b: string, maxLength: nat)
    requires SameApartFromCase(a, b)
    ensures Slug(a, maxLength) == Slug(b, maxLength)
  {
    assert Lower(a) == Lower(b);
  }

  lemma {:induction false} WordsConcat(x: string, y: string)
    ensures Words(x + "-" + y) == Words(x) + Words(y)
  {
    var s := x + "-" + y;
    if x == "" {
      assert s == "-" + y && s[1..] == y;
    } else {
      var more := x[1..];
      assert s[1..] == more + "-" + y;
      WordsConcat(more, y);
      if x[0] != '-' {
        var ws := Words(more);
        if 1 < |x| && x[1] != '-' {
          assert s[1] == x[1];
          assert ([[x[0]] + ws[0]] + ws[1..]) + Words(y) == [[x[0]] + (ws + Words(y))[0]] + (ws + Words(y))[1..];
        } else {
          assert s[1] == '-';
          assert [[x[0]]] + ws + Words(y) == [[x[0]]] + (ws + Words(y));
        }
      }
    }
  }

  lemma {:induction false} JoinConcat(a: seq<string>, b: seq<string>)
    requires a != [] && b != []
    ensures Join(a + b) == Join(a) + "-" + Join(b)
  {
    var rest := a[1..];
    assert a == [a[0]] + rest && a + b == [a[0]] + (rest + b);
    JoinCons(a[0], rest);
    JoinCons(a[0], rest + b);
    if rest != [] {
      JoinConcat(rest, b);
      assert a[0] + "-" + (Join(rest) + "-" + Join(b)) == (a[0] + "-" + Join(rest)) + "-" + Join(b);
    } else {
      assert rest + b == b;
    }
  }

  /** The slug before it is cut. */
  function Whole(text: string): string {
    Join(Words(Image(text)))
  }

  lemma KeepShrinks(s: string)
    ensures |Keep(s)| <= |s|
  {
  }

  lemma {:induction false} CollapseShrinks(s: string)
    ensures |Collapse(s)| <= |s|
  {
    if s != "" { CollapseShrinks(s[1..]); }
  }

  lemma {:induction false} StripRightShrinks(s: string)
    ensures |StripRight(s)| <= |s|
  {
    if s != "" && s[|s| - 1] == '-' { StripRightShrinks(s[..|s| - 1]); }
  }

  lemma {:induction false} StripLeftShrinks(s: string)
    ensures |StripLeft(s)| <= |s|
  {
    if s != "" && s[0] == '-' { StripLeftShrinks(s[1..]); }
  }

  lemma WholeFits(text: string)
    ensures |Whole(text)| <= |text|
  {
    var kept := Image(text);
    KeepShrinks(Hyphenate(Lower(text)));
    CollapseShrinks(kept);
    StripLeftShrinks(Collapse(kept));
    StripRightShrinks(StripLeft(Collapse(kept)));
    PipelineIsJoin(kept);
  }

  /** A limit of the text's own length never cuts; any other limit gives the first characters of the uncut
      slug, less a hyphen left at the cut. */
  lemma LimitOnlyCuts(text: string, maxLength: nat)
    ensures var uncut, r := Slug(text, |text|), Slug(text, maxLength);
            && (|uncut| <= maxLength ==> r == uncut)
            && (|uncut| > maxLength ==>
                 r == if 0 < maxLength && uncut[maxLength - 1] == '-' then uncut[..maxLength - 1]
                      else uncut[..maxLength])
  {
    WholeFits(text);
    SlugIsJoinedWords(Lower(text), |text|);
    SlugIsJoinedWords(Lower(text), maxLength);
  }

  lemma UncutIsWhole(text: string)
    ensures Slug(text, |text|) == Whole(text)
  {
    WholeFits(text);
    SlugIsJoinedWords(Lower(text), |text|);
  }

  lemma JoinNothing(ws: seq<string>)
    requires forall i :: 0 <= i < |ws| ==> ws[i] != ""
    ensures Join(ws) == "" <==> ws == []
  {
    if ws != [] {
      assert ws == [ws[0]] + ws[1..];
      JoinCons(ws[0], ws[1..]);
    }
  }

  /** The parts around a space, an underscore or a hyphen are slugged apart and joined by one hyphen;
      a part without a slug leaves no trace. */
  lemma PartsJoined(a: string, c: char, b: string)
    requires IsSeparator(c)
    ensures var one, two, both := Slug(a, |a|), Slug(b, |b|), Slug(a + [c] + b, |a| + 1 + |b|);
            both == if one == "" then two else if two == "" then one else one + "-" + two
  {
    hide Slug, Image, Words, Join;
    UncutIsWhole(a);
    UncutIsWhole(b);
    UncutIsWhole(a + [c] + b);
    ImageAround(a, [c], b);
    ImageOne(c);
    var x, y := Words(Image(a)), Words(Image(b));
    WordsConcat(Image(a), Image(b));
    JoinNothing(x);
    JoinNothing(y);
    if x != [] && y != [] {
      JoinConcat(x, y);
    } else if x == [] {
      assert x + y == y;
    } else {
      assert x + y == x;
    }
  }

  /** So "Pasta House" is at "pasta-house": two names whose slugs fit give the two slugs and a hyphen. */
  lemma NamesJoined(a: string, c: char, b: string)
    requires IsSeparator(c) && GenerateSlug(a) != "" && GenerateSlug(b) != ""
    requires |Slug(a, |a|)| + 1 + |Slug(b, |b|)| <= 100
    ensures GenerateSlug(a + [c] + b) == GenerateSlug(a) + "-" + GenerateSlug(b)
  {
    PartsJoined(a, c, b);
    LimitOnlyCuts(a, DEFAULT_LENGTH);
    LimitOnlyCuts(b, DEFAULT_LENGTH);
    LimitOnlyCuts(a + [c] + b, DEFAULT_LENGTH);
  }

  lemma PastaHouse()
    ensures GenerateSlug("Pasta House") == "pasta-house"
  {
    hide Normalise, Lower;
    CaseIgnored("Pasta House", "pasta house", DEFAULT_LENGTH);
    assert "pasta" + [' '] + "house" == "pasta house" && "pasta" + "-" + "house" == "pasta-house";
    SeparatorsAlike("pasta", ' ', "house", DEFAULT_LENGTH);
    SlugFixpoint("pasta-house", DEFAULT_LENGTH);
  }
}
