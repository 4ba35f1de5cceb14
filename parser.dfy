/** `MovieHandler._parse_string` and `MovieHandler._parse_info` of
    cinemabot/movie_handler.py: fields are cut out of a page's plain text at
    fixed offsets from the first occurrence of fixed Russian markers. */
module Parser {
  import opened Wrappers
  import opened Text
  import opened Metadata

  const IntroMarker := "это"
  const TitleMarker := "Название:"
  const TitleMarkerEng := "Название (Eng):"
  const CountryMarker := "Страна:"
  const DirectorMarker := "Режиссер:"
  const YearMarker := "Год выхода:"
  const ActorsMarker := "Актеры:"
  /** The generic preamble word cut off titles taken from the intro. */
  const FilmWord := "Фильм"

  /** The two exceptions `_parse_string` can raise: `TypeError` from
      `None + 9` when no title anchor exists, and `ValueError` from `float()`
      on the rating window. */
  datatype ParseError = NoTitleAnchor | BadRating

  // ---------------------------------------------------------------------------
  // `float()` on the three-character rating window
  // ---------------------------------------------------------------------------

  predicate IsDigit(c: char) { '0' <= c <= '9' }

  predicate AllDigits(s: string) {
    forall k :: 0 <= k < |s| ==> IsDigit(s[k])
  }

  function DigitValue(c: char): nat
    requires IsDigit(c)
  {
    c as int - '0' as int
  }

  /** The value of a run of decimal digits, most significant first. */
  function DigitsValue(s: string): nat
    requires AllDigits(s)
  {
    if s == [] then 0 else 10 * DigitsValue(s[..|s| - 1]) + DigitValue(s[|s| - 1])
  }

  function Pow10(n: nat): (r: nat)
    ensures r > 0
  {
    if n == 0 then 1 else 10 * Pow10(n - 1)
  }

  /** An unsigned decimal literal: digits, optionally one '.', at least one digit. */
  function UnsignedDecimal(t: string): Option<real> {
    match IndexOf(t, ".")
    case None =>
      if |t| > 0 && AllDigits(t) then Some(DigitsValue(t) as real) else None
    case Some(i) =>
      var whole, frac := t[..i], t[i + 1..];
      if AllDigits(whole) && AllDigits(frac) && |whole| + |frac| > 0 then
        Some(DigitsValue(whole) as real + DigitsValue(frac) as real / Pow10(|frac|) as real)
      else None
  }

  /** `float(s)` for decimal literals; `None` where Python raises `ValueError`. */
  function ParseFloat(s: string): (r: Option<real>)
    ensures AllSpace(s) ==> r.None?
  {
    StripAllSpace(s);
    var t := Strip(s);
    if |t| > 0 && (t[0] == '-' || t[0] == '+') then SignedDecimal(t) else UnsignedDecimal(t)
  }

  /** A decimal literal after its leading sign. */
  function SignedDecimal(t: string): Option<real>
    requires |t| > 0
  {
    match UnsignedDecimal(t[1..])
    case Some(v) => if t[0] == '-' then Some(-v) else Some(v)
    case None => None
  }

  /** The usual rating window `"d.e"` reads as `d + e / 10`. */
  lemma ParseFloatRating(d: char, e: char)
    requires IsDigit(d) && IsDigit(e)
    ensures ParseFloat([d, '.', e]) == Some(DigitValue(d) as real + DigitValue(e) as real / 10.0)
  {
    var t := [d, '.', e];
    ParseFloatPlain(t);
    UnsignedRating(d, e);
  }

  lemma ParseFloatPlain(t: string)
    requires |t| > 0 && IsDigit(t[0]) && !IsSpace(t[|t| - 1])
    ensures ParseFloat(t) == UnsignedDecimal(t)
  {
    assert TrimStart(t) == t;
    assert TrimEnd(t) == t;
    assert t[0] != '-' && t[0] != '+';
  }

  lemma UnsignedRating(d: char, e: char)
    requires IsDigit(d) && IsDigit(e)
    ensures UnsignedDecimal([d, '.', e]) == Some(DigitValue(d) as real + DigitValue(e) as real / 10.0)
  {
    var t := [d, '.', e];
    DotAtOne(d, e);
    var whole, frac := t[..1], t[1 + 1..];
    assert whole == [d] && frac == [e];
    assert AllDigits(whole) && AllDigits(frac);
    SingleDigit(d);
    SingleDigit(e);
    assert Pow10(|frac|) as real == 10.0;
    calc {
      UnsignedDecimal(t);
      Some(DigitsValue(whole) as real + DigitsValue(frac) as real / Pow10(|frac|) as real);
      Some(DigitValue(d) as real + DigitValue(e) as real / 10.0);
    }
  }

  lemma DotAtOne(d: char, e: char)
    requires d != '.'
    ensures IndexOf([d, '.', e], ".") == Some(1)
  {
    var t := [d, '.', e];
    assert !OccursAt(t, ".", 0) by {
      assert t[0..1] == [d];
    }
    assert OccursAt(t, ".", 1) by {
      assert t[1..2] == ".";
    }
  }

  lemma SingleDigit(d: char)
    requires IsDigit(d)
    ensures DigitsValue([d]) == DigitValue(d)
  {
    assert [d][..0] == [];
  }

  // ---------------------------------------------------------------------------
  // Marker positions, as the local variables of `_parse_string` hold them
  // ---------------------------------------------------------------------------

  /** `description`: where the intro starts, `0` when `'это'` is absent, so
      an absent intro and one at position 0 look the same. */
  function IntroAt(data: string): (r: nat)
    ensures r <= |data|
    ensures r == 0 <==> !Contains(data, IntroMarker) || OccursAt(data, IntroMarker, 0)
    ensures Contains(data, IntroMarker) ==>
              OccursAt(data, IntroMarker, r) && forall j :: 0 <= j < r ==> !OccursAt(data, IntroMarker, j)
  {
    IndexOf(data, IntroMarker).GetOr(0)
  }

  /** `name`: the first title marker, else `0` when the intro starts after
      position 0, else `None`. */
  function TitleAnchor(data: string): (r: Option<nat>)
    ensures r.None? <==> Unanchored(data)
    ensures Contains(data, TitleMarker) ==> r == IndexOf(data, TitleMarker)
    ensures !Contains(data, TitleMarker) && Contains(data, TitleMarkerEng) ==> r == IndexOf(data, TitleMarkerEng)
    ensures !Contains(data, TitleMarker) && !Contains(data, TitleMarkerEng) && IntroAt(data) != 0 ==> r == Some(0)
  {
    match IndexOf(data, TitleMarker)
    case Some(i) => Some(i)
    case None =>
      match IndexOf(data, TitleMarkerEng)
      case Some(i) => Some(i)
      case None => if IntroAt(data) != 0 then Some(0) else None
  }

  /** `country`: `0` when `'Страна:'` is absent. */
  function CountryAt(data: string): (r: nat)
    ensures r <= |data|
    ensures r == 0 <==> !Contains(data, CountryMarker) || OccursAt(data, CountryMarker, 0)
    ensures Contains(data, CountryMarker) ==>
              OccursAt(data, CountryMarker, r) && forall j :: 0 <= j < r ==> !OccursAt(data, CountryMarker, j)
  {
    IndexOf(data, CountryMarker).GetOr(0)
  }

  /** `end_country`: `0` when `'Режиссер:'` is absent. */
  function DirectorAt(data: string): (r: nat)
    ensures r <= |data|
    ensures r == 0 <==> !Contains(data, DirectorMarker) || OccursAt(data, DirectorMarker, 0)
    ensures Contains(data, DirectorMarker) ==>
              OccursAt(data, DirectorMarker, r) && forall j :: 0 <= j < r ==> !OccursAt(data, DirectorMarker, j)
  {
    IndexOf(data, DirectorMarker).GetOr(0)
  }

  /** `raiting`: three characters before `'Актеры:'`, `0` when it is absent. */
  function RatingAt(data: string): (r: int)
    ensures r == 0 <==> !Contains(data, ActorsMarker) || IndexOf(data, ActorsMarker) == Some(3)
    ensures Contains(data, ActorsMarker) ==> r + 3 == IndexOf(data, ActorsMarker).value && -3 <= r <= |data| - 3
  {
    match IndexOf(data, ActorsMarker)
    case Some(i) => i - 3
    case None => 0
  }

  /** True when `_parse_string` has no title anchor and raises on `None + 9`. */
  predicate Unanchored(data: string) {
    !Contains(data, TitleMarker) && !Contains(data, TitleMarkerEng) && IntroAt(data) == 0
  }

  // ---------------------------------------------------------------------------
  // The fields
  // ---------------------------------------------------------------------------

  /** `try_name` before the "Фильм" cut: with a year marker, the stripped text
      from `name + 9` up to it; else, with an anchor after position 0, up to
      the country marker; else the stripped intro with its last character
      dropped. A window that ends before it starts gives the empty string. */
  function RawTitle(data: string, name: nat): (r: string)
    ensures IndexOf(data, YearMarker).Some? ==>
              var y := IndexOf(data, YearMarker).value;
              r == if name + 9 <= y then Strip(data[name + 9..y]) else []
    ensures IndexOf(data, YearMarker).None? && name != 0 ==>
              r == if name + 9 <= CountryAt(data) then Strip(data[name + 9..CountryAt(data)]) else []
    ensures IndexOf(data, YearMarker).None? && name == 0 ==>
              var t := Strip(data[..IntroAt(data)]);
              r == if t == [] then [] else t[..|t| - 1]
  {
    var year := IndexOf(data, YearMarker);
    if year.Some? then Strip(Slice(data, name + 9, year.value))
    else if name != 0 then Strip(Slice(data, name + 9, CountryAt(data)))
    else
      var t := Strip(Slice(data, name, IntroAt(data)));
      SliceDropLast(t);
      Slice(t, 0, -1)
  }

  /** A title anchored at position 0 is cut just before its first "Фильм";
      one without "Фильм", or anchored elsewhere, is left as it is. */
  function CutFilmWord(t: string, name: nat): (r: string)
    ensures |r| <= |t| && r == t[..|r|]
    ensures name == 0 ==> !Contains(r, FilmWord)
    ensures name == 0 && Contains(t, FilmWord) ==> r == t[..IndexOf(t, FilmWord).value]
    ensures name != 0 || !Contains(t, FilmWord) ==> r == t
  {
    if name == 0 && Contains(t, FilmWord) then
      var i := IndexOf(t, FilmWord).value;
      NoOccurrenceInPrefix(t, FilmWord, i);
      Slice(t, 0, i)
    else t
  }

  lemma NoOccurrenceInPrefix(t: string, pat: string, i: nat)
    requires i <= |t| && forall j :: 0 <= j < i ==> !OccursAt(t, pat, j)
    requires |pat| > 0
    ensures !Contains(t[..i], pat)
  {
    forall j | OccursAt(t[..i], pat, j)
      ensures false
    {
      assert t[..i][j..j + |pat|] == t[j..j + |pat|];
      assert OccursAt(t, pat, j);
    }
  }

  /** `try_name` after the cut: a prefix of the raw title, free of "Фильм"
      when anchored at 0, and the raw title itself otherwise. */
  function Title(data: string, name: nat): (r: string)
    ensures |r| <= |RawTitle(data, name)| && r == RawTitle(data, name)[..|r|]
    ensures name == 0 ==> !Contains(r, FilmWord)
    ensures name != 0 ==> r == RawTitle(data, name)
  {
    CutFilmWord(RawTitle(data, name), name)
  }

  /** The description argument: the capitalised, stripped text from the intro
      up to the title marker, or up to the country marker when the anchor is
      0; empty when that boundary comes first. */
  function Description(data: string, name: nat): (r: string)
    ensures name != 0 && IntroAt(data) <= name <= |data| ==> r == Capitalize(Strip(data[IntroAt(data)..name]))
    ensures name != 0 && name <= IntroAt(data) ==> r == []
    ensures name == 0 ==>
              r == if IntroAt(data) <= CountryAt(data) then Capitalize(Strip(data[IntroAt(data)..CountryAt(data)])) else []
  {
    var intro := IntroAt(data);
    Capitalize(Strip(if name != 0 then Slice(data, intro, name) else Slice(data, intro, CountryAt(data))))
  }

  /** The country argument: the stripped text from 7 past `'Страна:'` up to
      `'Режиссер:'`; empty whenever that window is inverted, in particular
      whenever `'Режиссер:'` is absent. */
  function Country(data: string): (r: string)
    ensures r == if CountryAt(data) + 7 <= DirectorAt(data) then Strip(data[CountryAt(data) + 7..DirectorAt(data)]) else []
    ensures !Contains(data, DirectorMarker) ==> r == []
  {
    Strip(Slice(data, CountryAt(data) + 7, DirectorAt(data)))
  }

  /** The year argument: present exactly when `'Год выхода:'` occurs, and then
      the stripped text from 11 past it up to `'Страна:'`, empty when that
      window is inverted (in particular when `'Страна:'` is absent). */
  function Year(data: string): (r: Option<string>)
    ensures r.Some? <==> Contains(data, YearMarker)
    ensures r.Some? ==> var y := IndexOf(data, YearMarker).value;
                        r.value == if y + 11 <= CountryAt(data) then Strip(data[y + 11..CountryAt(data)]) else []
    ensures r.Some? && !Contains(data, CountryMarker) ==> r.value == []
  {
    match IndexOf(data, YearMarker)
    case Some(y) => Some(Strip(Slice(data, y + 11, CountryAt(data))))
    case None => None
  }

  /** The rating argument: not read when `raiting` is 0, otherwise `float()`
      of the window, which may fail. It is absent exactly when `'Актеры:'` is
      absent or at position 3; with `'Актеры:'` at 0, 1 or 2 the window
      `data[-3 + i:i]` is empty and `float('')` raises; past position 3 it is
      `float()` of the three characters before the marker. */
  function Rating(data: string): (r: Result<Option<real>, ParseError>)
    ensures r == Ok(None) <==> !Contains(data, ActorsMarker) || IndexOf(data, ActorsMarker) == Some(3)
    ensures Contains(data, ActorsMarker) && IndexOf(data, ActorsMarker).value < 3 ==> r == Err(BadRating)
    ensures Contains(data, ActorsMarker) && IndexOf(data, ActorsMarker).value > 3 ==>
              var a := IndexOf(data, ActorsMarker).value;
              r == match ParseFloat(data[a - 3..a]) case Some(v) => Ok(Some(v)) case None => Err(BadRating)
  {
    var at := RatingAt(data);
    if at == 0 then Ok(None)
    else
      match ParseFloat(Slice(data, at, at + 3))
      case Some(v) => Ok(Some(v))
      case None => Err(BadRating)
  }

  /** `MovieHandler._parse_string(data)`; `Err` where the source raises. */
  function ParseString(data: string): (r: Result<MovieMetadata, ParseError>)
    ensures r == Err(NoTitleAnchor) <==> Unanchored(data)
    ensures r == Err(BadRating) <==> !Unanchored(data) && Rating(data).Err?
    ensures r.Ok? ==> r.value.title.Some? && r.value.description.Some? && r.value.country.Some?
    ensures r.Ok? ==> (r.value.year.Some? <==> Contains(data, YearMarker))
    ensures r.Ok? ==> r.value.priority == 6 - Ind(!Contains(data, YearMarker)) - Ind(r.value.rating.None?)
    ensures r.Ok? ==> 4 <= r.value.priority <= 6
  {
    match TitleAnchor(data)
    case None => Err(NoTitleAnchor)
    case Some(name) =>
      match Rating(data)
      case Err(e) => Err(e)
      case Ok(rating) =>
        Ok(NewMetadata(Some(Title(data, name)), Some(Description(data, name)), Some(Country(data)),
                       Year(data), rating))
  }

  // ---------------------------------------------------------------------------
  // Properties of the slicing
  // ---------------------------------------------------------------------------

  /** `_parse_string("")` raises: with no marker at all there is no title anchor. */
  lemma EmptyPageRaises()
    ensures ParseString("") == Err(NoTitleAnchor)
  {
    assert !OccursAt("", TitleMarker, 0);
    assert IndexOf("", IntroMarker) == None;
  }

  /** With `'Название:'` after position 0 and a year marker, the title is the
      stripped text between 9 past the title marker and the year marker, and
      empty when the year marker comes before that point. */
  lemma TitleBetweenMarkers(data: string, n: nat, y: nat)
    requires IndexOf(data, TitleMarker) == Some(n) && n > 0
    requires IndexOf(data, YearMarker) == Some(y)
    requires ParseString(data).Ok?
    ensures ParseString(data).value.title == Some(if n + 9 <= y then Strip(data[n + 9..y]) else [])
  {}

  /** Without a year marker the title runs from 9 past the title marker to the
      country marker, and is empty when the country marker comes first. */
  lemma TitleUpToCountry(data: string, n: nat)
    requires IndexOf(data, TitleMarker) == Some(n) && n > 0
    requires !Contains(data, YearMarker)
    requires ParseString(data).Ok?
    ensures ParseString(data).value.title
            == Some(if n + 9 <= CountryAt(data) then Strip(data[n + 9..CountryAt(data)]) else [])
  {}

  /** With a year marker, the parsed year is the stripped text from 11 past
      it to `'Страна:'`, empty when that window is inverted. */
  lemma YearOnParse(data: string, y: nat)
    requires IndexOf(data, YearMarker) == Some(y)
    requires ParseString(data).Ok?
    ensures ParseString(data).value.year
            == Some(if y + 11 <= CountryAt(data) then Strip(data[y + 11..CountryAt(data)]) else [])
  {}

  /** Anchored at 0, the description is the intro up to `'Страна:'`, stripped,
      capitalised and reflowed; empty before the reflow when `country` comes
      before the intro. */
  lemma IntroAnchorDescription(data: string)
    requires TitleAnchor(data) == Some(0)
    requires ParseString(data).Ok?
    ensures ParseString(data).value.description
            == Some(Reflow(if IntroAt(data) <= CountryAt(data)
                           then Capitalize(Strip(data[IntroAt(data)..CountryAt(data)])) else []))
  {}

  /** With neither a year marker nor `'Страна:'`, `country` is 0, so the
      title window `data[name + 9:0]` is empty. */
  lemma NoCountryEmptyTitle(data: string, n: nat)
    requires IndexOf(data, TitleMarker) == Some(n) && n > 0
    requires !Contains(data, YearMarker) && !Contains(data, CountryMarker)
    requires ParseString(data).Ok?
    ensures ParseString(data).value.title == Some([])
  {
    TitleUpToCountry(data, n);
  }

  /** The offset 9 is also applied after the 15-character `'Название (Eng):'`,
      so such a title keeps the marker's tail `"(Eng):"` in front. */
  lemma EngTitleKeepsMarkerTail(data: string, n: nat, y: nat)
    requires !Contains(data, TitleMarker)
    requires IndexOf(data, TitleMarkerEng) == Some(n) && n > 0
    requires IndexOf(data, YearMarker) == Some(y) && n + 15 <= y
    requires ParseString(data).Ok?
    ensures StartsWith(ParseString(data).value.title.value, "(Eng):")
  {
    EngTitleBetweenMarkers(data, n, y);
    PieceAfterEngMarker(data, n, y);
  }

  /** After `'Название (Eng):'` with a year marker, the title is the stripped
      text from 9 past the marker to the year marker, empty when inverted. */
  lemma EngTitleBetweenMarkers(data: string, n: nat, y: nat)
    requires !Contains(data, TitleMarker)
    requires IndexOf(data, TitleMarkerEng) == Some(n) && n > 0
    requires IndexOf(data, YearMarker) == Some(y)
    requires ParseString(data).Ok?
    ensures ParseString(data).value.title == Some(if n + 9 <= y then Strip(data[n + 9..y]) else [])
  {
    assert IndexOf(data, TitleMarker).None?;
  }

  /** After `'Название (Eng):'` without a year marker, the title runs from 9
      past the marker to `'Страна:'`, and is empty when that comes first. */
  lemma EngTitleUpToCountry(data: string, n: nat)
    requires !Contains(data, TitleMarker)
    requires IndexOf(data, TitleMarkerEng) == Some(n) && n > 0
    requires !Contains(data, YearMarker)
    requires ParseString(data).Ok?
    ensures ParseString(data).value.title
            == Some(if n + 9 <= CountryAt(data) then Strip(data[n + 9..CountryAt(data)]) else [])
  {
    assert IndexOf(data, TitleMarker).None?;
  }

  lemma PieceAfterEngMarker(data: string, n: nat, y: nat)
    requires IndexOf(data, TitleMarkerEng) == Some(n)
    requires n + 15 <= y <= |data|
    ensures StartsWith(Strip(data[n + 9..y]), "(Eng):")
  {
    assert OccursAt(data, TitleMarkerEng, n);
    var marker := data[n..n + 15];
    MarkerTail(marker);
    var piece := data[n + 9..y];
    assert forall i :: 0 <= i < 6 ==> piece[i] == marker[9 + i];
    assert piece[..6] == marker[9..15];
    StripKeepsPrefix(piece, 6);
  }

  lemma MarkerTail(marker: string)
    requires marker == TitleMarkerEng
    ensures |marker| == 15 && marker[9..15] == "(Eng):"
  {}

  /** Stripping cannot reach into a prefix that starts and ends with non-space characters. */
  lemma StripKeepsPrefix(s: string, k: nat)
    requires 0 < k <= |s| && !IsSpace(s[0]) && !IsSpace(s[k - 1])
    ensures k <= |Strip(s)| && Strip(s)[..k] == s[..k]
  {
    assert TrimStart(s) == s;
    TrimEndKeepsPrefix(s);
    var r := TrimEnd(s);
    if |r| < k {
      assert false;
    }
  }

  /** A title taken from the intro (anchor 0, no year marker) is the stripped
      intro text with its last character dropped, cut just before its first
      "Фильм" if it has one. */
  lemma IntroTitleHasNoFilmWord(data: string)
    requires TitleAnchor(data) == Some(0) && !Contains(data, YearMarker)
    requires ParseString(data).Ok?
    ensures !Contains(ParseString(data).value.title.value, FilmWord)
    ensures var t := Strip(data[..IntroAt(data)]);
            var intro := if t == [] then [] else t[..|t| - 1];
            ParseString(data).value.title
            == Some(if Contains(intro, FilmWord) then intro[..IndexOf(intro, FilmWord).value] else intro)
  {}

  /** Anchored at 0 but with a year marker, the title is the stripped text
      from position 9 to the year marker, cut just before its first "Фильм". */
  lemma IntroAnchorTitleUpToYear(data: string, y: nat)
    requires TitleAnchor(data) == Some(0) && IndexOf(data, YearMarker) == Some(y)
    requires ParseString(data).Ok?
    ensures var raw := if 9 <= y then Strip(data[9..y]) else [];
            ParseString(data).value.title
            == Some(if Contains(raw, FilmWord) then raw[..IndexOf(raw, FilmWord).value] else raw)
  {}

  /** The description is the intro up to the title marker, capitalised after
      stripping and then reflowed; an intro that starts after the title marker
      leaves a description of a single space. */
  lemma DescriptionUpToTitle(data: string, n: nat)
    requires TitleAnchor(data) == Some(n) && n > 0
    requires ParseString(data).Ok?
    ensures n <= |data|
    ensures ParseString(data).value.description
            == Some(Reflow(if IntroAt(data) <= n then Capitalize(Strip(data[IntroAt(data)..n])) else []))
    ensures n <= IntroAt(data) ==> ParseString(data).value.description == Some(" ")
  {
    if n <= IntroAt(data) {
      ReflowOfEmpty();
    }
  }

  /** The country is the stripped text from 7 past `'Страна:'` to
      `'Режиссер:'`; without `'Режиссер:'` it is the empty string, present all
      the same. */
  lemma CountryBetweenMarkers(data: string)
    requires ParseString(data).Ok?
    ensures ParseString(data).value.country
            == Some(if CountryAt(data) + 7 <= DirectorAt(data) then Strip(data[CountryAt(data) + 7..DirectorAt(data)]) else [])
    ensures !Contains(data, DirectorMarker) ==> ParseString(data).value.country == Some([])
  {}

  /** The year is the stripped text from 11 past `'Год выхода:'` to
      `'Страна:'`. Without `'Страна:'` it is the empty string, and it still
      earns its point in the score. */
  lemma YearWithoutCountry(data: string)
    requires Contains(data, YearMarker) && !Contains(data, CountryMarker)
    requires ParseString(data).Ok?
    ensures ParseString(data).value.year == Some([])
    ensures ParseString(data).value.priority == 6 - Ind(ParseString(data).value.rating.None?)
  {}

  /** No rating is read when `'Актеры:'` is absent or sits at position 3
      (`raiting` is then 0). */
  lemma RatingNotRead(data: string)
    requires !Contains(data, ActorsMarker) || IndexOf(data, ActorsMarker) == Some(3)
    requires ParseString(data).Ok?
    ensures ParseString(data).value.rating.None?
    ensures ParseString(data).value.priority == 6 - Ind(!Contains(data, YearMarker)) - 1
  {}

  /** With `'Актеры:'` at position 0, 1 or 2 the window is empty and `float('')`
      raises: an anchored page then fails on its rating. */
  lemma ActorsNearStartRaises(data: string, a: nat)
    requires IndexOf(data, ActorsMarker) == Some(a) && a < 3
    requires !Unanchored(data)
    ensures ParseString(data) == Err(BadRating)
  {}

  /** The usual window `"d.e"` just before `'Актеры:'` gives the rating
      `d + e/10`, kept when it is at least 1. */
  lemma RatingWindow(data: string, a: nat, d: char, e: char)
    requires IndexOf(data, ActorsMarker) == Some(a) && a > 3
    requires data[a - 3..a] == [d, '.', e] && IsDigit(d) && IsDigit(e)
    requires !Unanchored(data)
    ensures var v := DigitValue(d) as real + DigitValue(e) as real / 10.0;
            ParseString(data).Ok? && ParseString(data).value.rating == if v >= 1.0 then Some(v) else None
  {
    RatingOfWindow(data, a, d, e);
    assert TitleAnchor(data).Some?;
  }

  lemma RatingOfWindow(data: string, a: nat, d: char, e: char)
    requires IndexOf(data, ActorsMarker) == Some(a) && a > 3
    requires data[a - 3..a] == [d, '.', e] && IsDigit(d) && IsDigit(e)
    ensures Rating(data) == Ok(Some(DigitValue(d) as real + DigitValue(e) as real / 10.0))
  {
    assert RatingAt(data) == a - 3;
    assert Slice(data, a - 3, a) == [d, '.', e];
    ParseFloatRating(d, e);
  }

  // ---------------------------------------------------------------------------
  // `_parse_info`: the fetched page, with the network and HTML parsing abstracted
  // ---------------------------------------------------------------------------

  /** What fetching one candidate page gives: a failure to connect or read
      (any exception), or a response with its status and the plain text of the
      `div#video-description` and `div.fleft.fx-1.fx-row` regions when present. */
  datatype Page =
    | Unreachable
    | Response(status: int, videoDescription: Option<string>, flexLeft: Option<string>)

  /** The text handed to `_parse_string`: the first region found. */
  function SectionText(p: Page): Option<string>
    requires p.Response?
  {
    if p.videoDescription.Some? then p.videoDescription else p.flexLeft
  }

  /** `MovieHandler._parse_info(url)`: every failure, including one raised
      while parsing, becomes `None`. */
  function ParseInfo(p: Page): (r: Option<MovieMetadata>)
    ensures r.Some? <==> p.Response? && p.status == 200 && SectionText(p).Some?
                         && ParseString(SectionText(p).value).Ok?
    ensures r.Some? ==> r.value == ParseString(SectionText(p).value).value
    ensures r.Some? ==> r.value.title.Some? && 4 <= r.value.priority <= 6
  {
    match p
    case Unreachable => None
    case Response(status, video, flex) =>
      if status != 200 then None
      else
        var text := if video.Some? then video else flex;
        match text
        case None => None
        case Some(t) =>
          match ParseString(t)
          case Ok(m) => Some(m)
          case Err(_) => None
  }
}
