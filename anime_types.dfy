/**
 * The entities of the catalogue: the two enumerations, calendar dates, the
 * editable draft of an anime entry and the persisted entry.
 */
module AnimeTypes {
  import opened Wrappers

  datatype Subtype = ONA | OVA | TV | Movie

  datatype Status = Current | Finished | Upcoming

  /** The string value of each `Subtype` member. */
  function SubtypeText(t: Subtype): string {
    match t
    case ONA => "ONA"
    case OVA => "OVA"
    case TV => "TV"
    case Movie => "movie"
  }

  /** The string value of each `Status` member; all three are lower case. */
  function StatusText(s: Status): string {
    match s
    case Current => "current"
    case Finished => "finished"
    case Upcoming => "upcoming"
  }

  /** The `Subtype` member whose value is `s`, if any. */
  function ParseSubtype(s: string): (r: Option<Subtype>)
    ensures r.Some? ==> SubtypeText(r.value) == s
  {
    if s == "ONA" then Some(ONA)
    else if s == "OVA" then Some(OVA)
    else if s == "TV" then Some(TV)
    else if s == "movie" then Some(Movie)
    else None
  }

  /** The `Status` member whose value is `s`, if any. */
  function ParseStatus(s: string): (r: Option<Status>)
    ensures r.Some? ==> StatusText(r.value) == s
  {
    if s == "current" then Some(Current)
    else if s == "finished" then Some(Finished)
    else if s == "upcoming" then Some(Upcoming)
    else None
  }

  lemma SubtypeTextRoundTrip(t: Subtype)
    ensures ParseSubtype(SubtypeText(t)) == Some(t)
  {
  }

  lemma StatusTextRoundTrip(s: Status)
    ensures ParseStatus(StatusText(s)) == Some(s)
  {
  }

  /** A calendar day, counted from 1970-01-01 (day 0); earlier days are negative. */
  type Day = int

  /**
   * The day number of the proleptic Gregorian date `year`-`month`-`day`, the
   * UTC midnight at which an ISO `YYYY-MM-DD` string is read.
   */
  function DayNumber(year: int, month: int, day: int): Day
    requires 1 <= month <= 12
  {
    var y := if month <= 2 then year - 1 else year;
    var era := y / 400;
    var yearOfEra := y - era * 400;
    var shiftedMonth := if month > 2 then month - 3 else month + 9;
    var dayOfYear := (153 * shiftedMonth + 2) / 5 + day - 1;
    var dayOfEra := yearOfEra * 365 + yearOfEra / 4 - yearOfEra / 100 + dayOfYear;
    era * 146097 + dayOfEra - 719468
  }

  /** The schema's earliest start date, `1900-1-1`. */
  const MinStartDay: Day := DayNumber(1900, 1, 1)

  lemma DayNumberAnchors()
    ensures DayNumber(1970, 1, 1) == 0
    ensures MinStartDay == -25567
    ensures DayNumber(2020, 1, 1) == 18262 && DayNumber(2020, 6, 1) == 18414
  {
  }

  /**
   * A date field of the draft: `null`, a `YYYY-MM-DD` string (held as its day),
   * or the text `'Invalid Date'` that formatting an unparsable picker value gives.
   */
  datatype DateField = NullDate | Iso(day: Day) | InvalidDate

  /**
   * The editable fields of an entry (`AnimeFields` without `id`). Ratings are
   * counted in half points (0..20 for 0..10); `subtype` and `status` hold the
   * string the select produced; `None` is JavaScript's `null`.
   */
  datatype Draft = Draft(
    title: string,
    enTitle: Option<string>,
    description: string,
    rating: Option<int>,
    startDate: DateField,
    endDate: DateField,
    subtype: string,
    status: string,
    posterImage: string,
    coverImage: Option<string>,
    episodeCount: Option<int>,
    categories: seq<string>)

  /** A persisted entry: its fields and its identifier. */
  datatype Anime = Anime(id: int, fields: Draft)

  /** The twelve keys of a draft, as the schema and the error map name them. */
  datatype FieldName =
    | TitleField | EnTitleField | DescriptionField | RatingField
    | StartDateField | EndDateField | SubtypeField | StatusField
    | PosterImageField | CoverImageField | EpisodeCountField | CategoriesField

  /** The value held under one key, whatever its type. */
  datatype FieldValue =
    | Text(text: string)
    | NullableText(nullable: Option<string>)
    | Number(number: Option<int>)
    | Date(date: DateField)
    | List(items: seq<string>)

  function ValueOf(d: Draft, f: FieldName): FieldValue {
    match f
    case TitleField => Text(d.title)
    case EnTitleField => NullableText(d.enTitle)
    case DescriptionField => Text(d.description)
    case RatingField => Number(d.rating)
    case StartDateField => Date(d.startDate)
    case EndDateField => Date(d.endDate)
    case SubtypeField => Text(d.subtype)
    case StatusField => Text(d.status)
    case PosterImageField => Text(d.posterImage)
    case CoverImageField => NullableText(d.coverImage)
    case EpisodeCountField => Number(d.episodeCount)
    case CategoriesField => List(d.categories)
  }

  /** Two drafts with the same value under every key are the same draft. */
  lemma DraftExtensionality(d: Draft, e: Draft)
    requires forall f :: ValueOf(d, f) == ValueOf(e, f)
    ensures d == e
  {
    assert ValueOf(d, TitleField) == ValueOf(e, TitleField);
    assert ValueOf(d, EnTitleField) == ValueOf(e, EnTitleField);
    assert ValueOf(d, DescriptionField) == ValueOf(e, DescriptionField);
    assert ValueOf(d, RatingField) == ValueOf(e, RatingField);
    assert ValueOf(d, StartDateField) == ValueOf(e, StartDateField);
    assert ValueOf(d, EndDateField) == ValueOf(e, EndDateField);
    assert ValueOf(d, SubtypeField) == ValueOf(e, SubtypeField);
    assert ValueOf(d, StatusField) == ValueOf(e, StatusField);
    assert ValueOf(d, PosterImageField) == ValueOf(e, PosterImageField);
    assert ValueOf(d, CoverImageField) == ValueOf(e, CoverImageField);
    assert ValueOf(d, EpisodeCountField) == ValueOf(e, EpisodeCountField);
    assert ValueOf(d, CategoriesField) == ValueOf(e, CategoriesField);
  }

  /** Whether `v` has the type of the value held under `f`. */
  predicate Fits(f: FieldName, v: FieldValue) {
    match f
    case TitleField => v.Text?
    case DescriptionField => v.Text?
    case SubtypeField => v.Text?
    case StatusField => v.Text?
    case PosterImageField => v.Text?
    case EnTitleField => v.NullableText?
    case CoverImageField => v.NullableText?
    case RatingField => v.Number?
    case EpisodeCountField => v.Number?
    case StartDateField => v.Date?
    case EndDateField => v.Date?
    case CategoriesField => v.List?
  }

  lemma ValueOfFits(d: Draft, f: FieldName)
    ensures Fits(f, ValueOf(d, f))
  {
  }

  /** `{ ...d, [f]: v }`: the draft with `v` under `f` and every other key as it was. */
  function WithValue(d: Draft, f: FieldName, v: FieldValue): (r: Draft)
    requires Fits(f, v)
    ensures ValueOf(r, f) == v
    ensures forall g :: g != f ==> ValueOf(r, g) == ValueOf(d, g)
  {
    match f
    case TitleField => d.(title := v.text)
    case EnTitleField => d.(enTitle := v.nullable)
    case DescriptionField => d.(description := v.text)
    case RatingField => d.(rating := v.number)
    case StartDateField => d.(startDate := v.date)
    case EndDateField => d.(endDate := v.date)
    case SubtypeField => d.(subtype := v.text)
    case StatusField => d.(status := v.text)
    case PosterImageField => d.(posterImage := v.text)
    case CoverImageField => d.(coverImage := v.nullable)
    case EpisodeCountField => d.(episodeCount := v.number)
    case CategoriesField => d.(categories := v.items)
  }
}
