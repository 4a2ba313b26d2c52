/**
 * The display formatters of src/utils/anime-utils.ts: the label of a subtype,
 * the label of a status, and the text of a rating. A rating is a count of
 * half points, the precision of the rating widget.
 */
module AnimeUtils {
  import opened Wrappers
  import opened Text
  import opened AnimeTypes

  /** `animeTypeFormatter`: TV and movie get a label, ONA and OVA are shown as they are. */
  function AnimeTypeFormatter(t: Subtype): (r: string)
    ensures t == TV ==> r == "TV Series"
    ensures t == Movie ==> r == "Movie"
    ensures t == ONA || t == OVA ==> r == SubtypeText(t)
  {
    match t
    case TV => "TV Series"
    case Movie => "Movie"
    case _ => SubtypeText(t)
  }

  /** Two subtypes never share a label. */
  lemma AnimeTypeFormatterInjective(a: Subtype, b: Subtype)
    requires AnimeTypeFormatter(a) == AnimeTypeFormatter(b)
    ensures a == b
  {
    assert "TV Series"[0] == 'T' && "Movie"[0] == 'M';
  }

  /** `animeStatusFormatter`: current gets a label, any other status is capitalised. */
  function AnimeStatusFormatter(s: Status): (r: string)
    ensures s == Current ==> r == "Currently Airing"
    ensures s != Current ==> |r| == |StatusText(s)| && r[0] == ToUpper(StatusText(s)[0])
    ensures s != Current ==> r[1..] == StatusText(s)[1..]
  {
    if s == Current then "Currently Airing" else Capitalize(StatusText(s))
  }

  lemma AnimeStatusFormatterExamples()
    ensures AnimeStatusFormatter(Current) == "Currently Airing"
    ensures AnimeStatusFormatter(Finished) == "Finished"
    ensures AnimeStatusFormatter(Upcoming) == "Upcoming"
  {
    assert Capitalize("finished") == [ToUpper('f')] + "inished";
    assert Capitalize("upcoming") == [ToUpper('u')] + "pcoming";
  }

  /** Two statuses never share a label. */
  lemma AnimeStatusFormatterInjective(a: Status, b: Status)
    requires AnimeStatusFormatter(a) == AnimeStatusFormatter(b)
    ensures a == b
  {
    AnimeStatusFormatterExamples();
    assert "Currently Airing"[0] == 'C' && "Finished"[0] == 'F' && "Upcoming"[0] == 'U';
  }

  /**
   * `animeRatingFormatter`: `'-'` for no rating; a whole number of points is
   * written with `'.0'` after it, a half point as JavaScript writes the
   * number, which ends in `'.5'`.
   */
  function AnimeRatingFormatter(rating: Option<int>): (r: string)
    ensures rating.None? <==> r == "-"
  {
    match rating
    case None => "-"
    case Some(h) => if h < 0 then "-" + PointsText(-h) else PointsText(h)
  }

  /** `m` half points without a sign: the whole points, `'.'`, then `'0'` or `'5'`. */
  function PointsText(m: nat): (r: string)
    ensures |r| >= 3 && r[0] != '-'
  {
    DecimalText(m / 2) + ['.', if m % 2 == 0 then '0' else '5']
  }

  /** Whole numbers are `String(n) + '.0'`, like `rating + '.0'`. */
  lemma WholeRatingText(n: int)
    ensures AnimeRatingFormatter(Some(2 * n)) == IntText(n) + ".0"
  {
  }

  lemma AnimeRatingFormatterExamples()
    ensures AnimeRatingFormatter(Some(20)) == "10.0"
    ensures AnimeRatingFormatter(Some(15)) == "7.5"
    ensures AnimeRatingFormatter(Some(0)) == "0.0"
  {
    assert DecimalText(10) == DecimalText(1) + [DigitChar(0)];
  }

  /** Every rating's text holds exactly one `'.'`; the text of no rating holds none. */
  lemma RatingTextOneDot(rating: Option<int>)
    ensures Count(AnimeRatingFormatter(rating), '.') == if rating.Some? then 1 else 0
  {
    match rating
    case None =>
      assert Count("-", '.') == Count("", '.');
    case Some(h) =>
      var m: nat := if h < 0 then -h else h;
      PointsTextOneDot(m);
      if h < 0 {
        CountAppend("-", PointsText(m), '.');
        assert Count("-", '.') == Count("", '.');
      }
  }

  lemma PointsTextOneDot(m: nat)
    ensures Count(PointsText(m), '.') == 1
  {
    var digits := DecimalText(m / 2);
    var last := if m % 2 == 0 then '0' else '5';
    CountDigits(digits, '.');
    assert Count([last], '.') == 0 by {
      assert [last][1..] == [];
    }
    assert Count(['.', last], '.') == 1 by {
      assert ['.', last][1..] == [last];
    }
    CountAppend(digits, ['.', last], '.');
  }

  /** The rating a formatted text stands for: an optional `'-'`, then a number of points. */
  function ReadRating(s: string): Option<int> {
    if |s| > 0 && s[0] == '-' then
      match ReadPoints(s[1..])
      case Some(m) => Some(-(m as int))
      case None => None
    else
      match ReadPoints(s)
      case Some(m) => Some(m)
      case None => None
  }

  /** The half points a text of digits, `'.'`, and `'0'` or `'5'` stands for. */
  function ReadPoints(body: string): Option<nat> {
    if |body| >= 3 && body[|body| - 2] == '.' && AllDigits(body[..|body| - 2])
       && (body[|body| - 1] == '0' || body[|body| - 1] == '5')
    then Some(DigitsValue(body[..|body| - 2]) * 2 + (if body[|body| - 1] == '5' then 1 else 0))
    else None
  }

  lemma ReadPointsOf(digits: string, last: char)
    requires |digits| >= 1 && AllDigits(digits) && (last == '0' || last == '5')
    ensures ReadPoints(digits + ['.', last]) == Some(DigitsValue(digits) * 2 + (if last == '5' then 1 else 0))
  {
    var body := digits + ['.', last];
    assert body[..|body| - 2] == digits;
  }

  /** Reading a formatted rating back gives the rating: the text loses nothing. */
  lemma RatingTextRoundTrip(h: int)
    ensures ReadRating(AnimeRatingFormatter(Some(h))) == Some(h)
  {
    if h < 0 {
      var t := PointsText(-h);
      PointsRoundTrip(-h);
      assert ("-" + t)[1..] == t;
      assert ReadRating("-" + t) == Some(h);
    } else {
      PointsRoundTrip(h);
    }
  }

  lemma PointsRoundTrip(m: nat)
    ensures ReadPoints(PointsText(m)) == Some(m)
  {
    var last := if m % 2 == 0 then '0' else '5';
    DecimalRoundTrip(m / 2);
    ReadPointsOf(DecimalText(m / 2), last);
  }

  /** Two ratings never share a text. */
  lemma AnimeRatingFormatterInjective(a: Option<int>, b: Option<int>)
    requires AnimeRatingFormatter(a) == AnimeRatingFormatter(b)
    ensures a == b
  {
    if a.Some? && b.Some? {
      RatingTextRoundTrip(a.value);
      RatingTextRoundTrip(b.value);
    }
  }
}
