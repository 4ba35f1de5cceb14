/** `MovieMetadata` of cinemabot/movie_handler.py: the record built from the
    extracted fields, with its description reflowed sentence by sentence,
    its rating normalised and its completeness score ("priority"). */
module Metadata {
  import opened Wrappers
  import opened Text

  datatype MovieMetadata = MovieMetadata(
    title: Option<string>,
    description: Option<string>,
    country: Option<string>,
    year: Option<string>,
    rating: Option<real>,
    priority: int)

  function Ind(b: bool): int { if b then 1 else 0 }

  /** A rating is kept only when present and at least 1. */
  predicate ValidRating(rating: Option<real>) {
    rating.Some? && rating.value >= 1.0
  }

  /** Reference reading of the score: one point per field the record holds,
      two for the description. */
  function Completeness(m: MovieMetadata): int {
    Ind(m.title.Some?) + 2 * Ind(m.description.Some?) + Ind(m.country.Some?)
    + Ind(m.year.Some?) + Ind(m.rating.Some?)
  }

  // ---------------------------------------------------------------------------
  // Description reflow
  // ---------------------------------------------------------------------------

  /** One reflowed sentence: a space, then the stripped piece capitalised. */
  function Sentence(p: string): string {
    [' '] + Capitalize(Strip(p))
  }

  function Sentences(ps: seq<string>): (r: seq<string>)
    ensures |r| == |ps|
  {
    if ps == [] then [] else [Sentence(ps[0])] + Sentences(ps[1..])
  }

  /** `functools.reduce(operator.add, xs)`: a left fold, defined only on a
      non-empty list (Python raises `TypeError` on an empty one). It agrees
      with the right-nested concatenation `Concat`. */
  function ReduceAdd(xs: seq<string>): (r: string)
    requires |xs| > 0
    ensures r == Concat(xs)
  {
    if |xs| == 1 then xs[0]
    else
      var init := xs[..|xs| - 1];
      ConcatAppend(init, xs[|xs| - 1]);
      assert init + [xs[|xs| - 1]] == xs;
      ReduceAdd(init) + xs[|xs| - 1]
  }

  /** The description rewrite of `MovieMetadata.__init__`. The `strip()` that
      follows it in the source discards its result, so nothing is trimmed. */
  function Reflow(d: string): (r: string)
    ensures r == Concat(Sentences(SplitAfterDots(d)))
  {
    ReduceAdd(Sentences(SplitAfterDots(d)))
  }

  /** Every reflowed description opens with the space of its first sentence. */
  lemma ReflowLeadingSpace(d: string)
    ensures |Reflow(d)| > 0 && Reflow(d)[0] == ' '
  {
    var ps := SplitAfterDots(d);
    SentencesAt(ps, 0);
  }

  lemma {:induction false} ConcatAppend(xs: seq<string>, y: string)
    ensures Concat(xs + [y]) == Concat(xs) + y
  {
    if xs != [] {
      assert (xs + [y])[1..] == xs[1..] + [y];
      ConcatAppend(xs[1..], y);
    }
  }

  lemma {:induction false} CountDotsAppend(a: string, b: string)
    ensures CountDots(a + b) == CountDots(a) + CountDots(b)
  {
    if a != [] {
      calc {
        CountDots(a + b);
        (if a[0] == '.' then 1 else 0) + CountDots((a + b)[1..]);
        { assert (a + b)[1..] == a[1..] + b; CountDotsAppend(a[1..], b); }
        CountDots(a) + CountDots(b);
      }
    } else {
      assert a + b == b;
    }
  }

  lemma {:induction false} CountDotsSpace(s: string)
    requires AllSpace(s)
    ensures CountDots(s) == 0
  {
    if s != [] {
      CountDotsSpace(s[1..]);
    }
  }

  lemma {:induction false} CountDotsTrimStart(s: string)
    ensures CountDots(TrimStart(s)) == CountDots(s)
  {
    if |s| > 0 && IsSpace(s[0]) {
      CountDotsTrimStart(s[1..]);
    }
  }

  lemma {:induction false} CountDotsTrimEnd(s: string)
    ensures CountDots(TrimEnd(s)) == CountDots(s)
  {
    if |s| > 0 && IsSpace(s[|s| - 1]) {
      var init := s[..|s| - 1];
      CountDotsTrimEnd(init);
      assert s == init + [s[|s| - 1]];
      CountDotsAppend(init, [s[|s| - 1]]);
    }
  }

  /** Stripping removes white space only, never a dot. */
  lemma CountDotsStrip(s: string)
    ensures CountDots(Strip(s)) == CountDots(s)
  {
    CountDotsTrimStart(s);
    CountDotsTrimEnd(TrimStart(s));
  }

  lemma {:induction false} CountDotsLowerAll(s: string)
    ensures CountDots(LowerAll(s)) == CountDots(s)
  {
    if s != [] {
      assert LowerAll(s)[1..] == LowerAll(s[1..]);
      CountDotsLowerAll(s[1..]);
    }
  }

  lemma CountDotsCapitalize(s: string)
    ensures CountDots(Capitalize(s)) == CountDots(s)
  {
    if s != [] {
      assert Capitalize(s)[1..] == LowerAll(s[1..]);
      CountDotsLowerAll(s[1..]);
    }
  }

  lemma {:induction false} CountDotsSentences(ps: seq<string>)
    ensures CountDots(Concat(Sentences(ps))) == CountDots(Concat(ps))
  {
    if ps != [] {
      var p := ps[0];
      CountDotsSentences(ps[1..]);
      CountDotsAppend(Sentence(p), Concat(Sentences(ps[1..])));
      CountDotsAppend(p, Concat(ps[1..]));
      CountDotsAppend([' '], Capitalize(Strip(p)));
      CountDotsCapitalize(Strip(p));
      CountDotsStrip(p);
    }
  }

  /** Reflowing keeps every sentence: the result holds exactly the dots of the input. */
  lemma ReflowKeepsSentences(d: string)
    ensures CountDots(Reflow(d)) == CountDots(d)
  {
    SplitAfterDotsConcat(d);
    CountDotsSentences(SplitAfterDots(d));
  }

  lemma {:induction false} ConcatLast(xs: seq<string>)
    requires |xs| > 0
    ensures Concat(xs) == Concat(xs[..|xs| - 1]) + xs[|xs| - 1]
  {
    ConcatAppend(xs[..|xs| - 1], xs[|xs| - 1]);
    assert xs[..|xs| - 1] + [xs[|xs| - 1]] == xs;
  }

  /** A description that ends its last sentence with a dot gets a trailing
      space: the empty piece after the final dot still contributes `" "`. */
  lemma ReflowTrailingSpace(d: string)
    requires |d| > 0 && d[|d| - 1] == '.'
    ensures |Reflow(d)| > 0 && Reflow(d)[|Reflow(d)| - 1] == ' '
  {
    var ps := SplitAfterDots(d);
    var last := ps[|ps| - 1];
    SplitAfterDotsConcat(d);
    SplitAfterDotsLast(d);
    ConcatLast(ps);
    assert last == [];
    var ss := Sentences(ps);
    assert ss[|ss| - 1] == " " by {
      SentencesAt(ps, |ps| - 1);
    }
    ConcatLast(ss);
  }

  lemma {:induction false} SentencesAt(ps: seq<string>, k: nat)
    requires k < |ps|
    ensures Sentences(ps)[k] == Sentence(ps[k])
  {
    if k > 0 {
      SentencesAt(ps[1..], k - 1);
    }
  }

  /** Two one-letter sentences: `"x.y."` reflows to `" X. Y. "`. */
  lemma ReflowTwoSentences(x: char, y: char)
    requires x != '.' && y != '.' && !IsSpace(x) && !IsSpace(y)
    ensures Reflow([x, '.', y, '.']) == [' ', Upper(x), '.'] + [' ', Upper(y), '.'] + [' ']
  {
    SentencesTwoSentences(x, y);
  }

  lemma SentencesTwoSentences(x: char, y: char)
    requires x != '.' && y != '.' && !IsSpace(x) && !IsSpace(y)
    ensures Concat(Sentences(SplitAfterDots([x, '.', y, '.'])))
            == [' ', Upper(x), '.'] + [' ', Upper(y), '.'] + [' ']
  {
    var ps := [[x, '.'], [y, '.'], []];
    var a, b, c := [' ', Upper(x), '.'], [' ', Upper(y), '.'], [' '];
    calc {
      Concat(Sentences(SplitAfterDots([x, '.', y, '.'])));
      { SplitTwoSentences(x, y); }
      Concat(Sentences(ps));
      { SentencesOfThree(ps); }
      Concat([Sentence(ps[0]), Sentence(ps[1]), Sentence(ps[2])]);
      { SentenceOfLetterDot(x); SentenceOfLetterDot(y); SentenceOfEmpty(); }
      Concat([a, b, c]);
      { ConcatOfThree(a, b, c); }
      a + b + c;
    }
  }

  lemma SentenceOfEmpty()
    ensures Sentence([]) == [' ']
  {
    assert Strip([]) == [];
  }

  /** An empty description reflows to a single space. */
  lemma ReflowOfEmpty()
    ensures Reflow([]) == " "
  {
    SentenceOfEmpty();
    assert Sentences([[]]) == [Sentence([])];
  }

  lemma SplitTwoSentences(x: char, y: char)
    requires x != '.' && y != '.'
    ensures SplitAfterDots([x, '.', y, '.']) == [[x, '.'], [y, '.'], []]
  {
    SplitDot([], [[]]);
    assert ['.'] + [] == ['.'];
    SplitLetter(y, ['.'], [['.'], []]);
    assert [y] + ['.'] == [y, '.'];
    assert [[y] + ['.']] + [[]] == [[y, '.'], []];
    SplitDot([y, '.'], [[y, '.'], []]);
    assert ['.'] + [y, '.'] == ['.', y, '.'];
    SplitLetter(x, ['.', y, '.'], [['.'], [y, '.'], []]);
    assert [x] + ['.', y, '.'] == [x, '.', y, '.'];
    assert [x] + ['.'] == [x, '.'];
    assert [[x] + ['.']] + [[y, '.'], []] == [[x, '.'], [y, '.'], []];
  }

  lemma SplitDot(s: string, ps: seq<string>)
    requires SplitAfterDots(s) == ps
    ensures SplitAfterDots(['.'] + s) == [['.']] + ps
  {
    assert (['.'] + s)[1..] == s;
  }

  lemma SplitLetter(c: char, s: string, ps: seq<string>)
    requires c != '.' && SplitAfterDots(s) == ps
    ensures SplitAfterDots([c] + s) == [[c] + ps[0]] + ps[1..]
  {
    assert ([c] + s)[1..] == s;
  }

  lemma SentencesOfThree(ps: seq<string>)
    requires |ps| == 3
    ensures Sentences(ps) == [Sentence(ps[0]), Sentence(ps[1]), Sentence(ps[2])]
  {
    SentencesAt(ps, 0);
    SentencesAt(ps, 1);
    SentencesAt(ps, 2);
  }

  lemma ConcatOfThree(a: string, b: string, c: string)
    ensures Concat([a, b, c]) == a + b + c
  {
    assert [a, b, c][1..] == [b, c];
    assert [b, c][1..] == [c];
    assert [c][1..] == [];
    assert Concat([c]) == c + [] == c;
    assert Concat([b, c]) == b + c;
  }

  lemma SentenceOfLetterDot(x: char)
    requires x != '.' && !IsSpace(x)
    ensures Sentence([x, '.']) == [' ', Upper(x), '.']
  {
    assert TrimStart([x, '.']) == [x, '.'];
    assert TrimEnd([x, '.']) == [x, '.'];
    assert LowerAll(['.']) == ['.'] by {
      assert ['.'][1..] == [];
    }
  }

  /** The example the reflow is meant for: `"a.b."` becomes `" A. B. "`. */
  lemma ReflowExample(d: string)
    requires d == "a.b."
    ensures Reflow(d) == " A. B. "
  {
    var x, y := 'a', 'b';
    assert d == [x, '.', y, '.'];
    ReflowTwoSentences(x, y);
    assert Upper(x) == 'A' && Upper(y) == 'B';
    assert [' ', 'A', '.'] + [' ', 'B', '.'] + [' '] == " A. B. ";
  }

  // ---------------------------------------------------------------------------
  // Construction and scoring
  // ---------------------------------------------------------------------------

  /** `MovieMetadata(title, description, country, year, rating)`. */
  function NewMetadata(title: Option<string>, description: Option<string>, country: Option<string>,
                       year: Option<string>, rating: Option<real>): (m: MovieMetadata)
    ensures m.title == title && m.country == country && m.year == year
    ensures m.description.Some? <==> description.Some?
    ensures description.Some? ==> m.description == Some(Reflow(description.value))
    ensures m.rating.Some? <==> ValidRating(rating)
    ensures m.rating.Some? ==> m.rating == rating
    ensures m.priority == Completeness(m)
    ensures 0 <= m.priority <= 6
  {
    var desc := if description.Some? then Some(Reflow(description.value)) else None;
    var kept := if rating.None? || rating.value < 1.0 then None else rating;
    MovieMetadata(title, desc, country, year, kept, Priority(title, description, country, year, rating))
  }

  /** `self.priority` as the constructor computes it: 6, less one point for
      each missing field (two for the description), less one more when the
      rating is missing or below 1. */
  function Priority(title: Option<string>, description: Option<string>, country: Option<string>,
                    year: Option<string>, rating: Option<real>): (p: int)
    ensures p == Ind(title.Some?) + 2 * Ind(description.Some?) + Ind(country.Some?) + Ind(year.Some?)
                 + Ind(ValidRating(rating))
  {
    var lenFlag := if description.Some? then 0 else 1;
    var priority := 6 - Ind(title.None?) - 2 * lenFlag - Ind(country.None?) - Ind(year.None?);
    PenaltiesCountPresence(title.Some?, description.Some?, country.Some?, year.Some?);
    if rating.None? || rating.value < 1.0 then priority - 1 else priority
  }

  /** Subtracting one point per missing field from 6 counts the fields present. */
  lemma PenaltiesCountPresence(t: bool, d: bool, c: bool, y: bool)
    ensures 6 - Ind(!t) - 2 * (if d then 0 else 1) - Ind(!c) - Ind(!y) == Ind(t) + 2 * Ind(d) + Ind(c) + Ind(y) + 1
  {}

  /** The two ends of the scale: everything present with a valid rating
      scores 6, nothing present scores 0. */
  lemma PriorityExtremes(t: string, d: string, c: string, y: string, r: real)
    requires r >= 1.0
    ensures NewMetadata(Some(t), Some(d), Some(c), Some(y), Some(r)).priority == 6
    ensures NewMetadata(None, None, None, None, None).priority == 0
  {}

  /** A missing rating, or one below 1, is dropped and costs exactly one point
      against the same record with a valid rating. */
  lemma RatingPenalty(t: Option<string>, d: Option<string>, c: Option<string>, y: Option<string>,
                      r: Option<real>, valid: real)
    requires !ValidRating(r) && valid >= 1.0
    ensures NewMetadata(t, d, c, y, r).rating.None?
    ensures NewMetadata(t, d, c, y, r).priority == NewMetadata(t, d, c, y, Some(valid)).priority - 1
  {}

  /** Supplying more fields never lowers the score. */
  lemma PriorityMonotone(t: Option<string>, d: Option<string>, c: Option<string>, y: Option<string>, r: Option<real>,
                         t': Option<string>, d': Option<string>, c': Option<string>, y': Option<string>, r': Option<real>)
    requires t.Some? ==> t'.Some?
    requires d.Some? ==> d'.Some?
    requires c.Some? ==> c'.Some?
    requires y.Some? ==> y'.Some?
    requires ValidRating(r) ==> ValidRating(r')
    ensures NewMetadata(t, d, c, y, r).priority <= NewMetadata(t', d', c', y', r').priority
  {}

  /** The score is fixed at construction: filling in a missing title
      afterwards leaves it one point below the record's completeness. */
  lemma TitlePatchUnderstates(m: MovieMetadata, t: string)
    requires m.priority == Completeness(m) && m.title.None?
    ensures m.(title := Some(t)).priority == Completeness(m.(title := Some(t))) - 1
  {}
}
