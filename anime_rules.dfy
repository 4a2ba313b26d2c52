/**
 * The validation rules of the create/edit form (the Joi object `schema` of
 * src/components/new-anime/anime-form.tsx), restated as functions. Checking a
 * draft yields the list of rule violations ("details") that Joi reports with
 * `abortEarly: false`; each detail names the path it is reported at and the
 * kind of rule that failed, which stands for Joi's message text.
 */
module AnimeRules {
  import opened Wrappers
  import opened Text
  import opened AnimeTypes

  /** The Joi error types the schema can produce. */
  datatype RuleKind =
    | AnyOnly       // not one of the allowed values
    | AnyRef        // a referenced sibling does not hold a date
    | StringBase    // not a string
    | StringEmpty   // empty once trimmed
    | StringMax     // longer than allowed once trimmed
    | StringUri     // not a URI
    | NumberBase    // not a number
    | NumberUnsafe  // beyond JavaScript's safe integers
    | NumberMin
    | NumberMax
    | DateBase      // not a date
    | DateFormat    // a string that is not an ISO date
    | DateGreater   // not strictly after now
    | DateMin
    | DateMax
    | ArrayUnique
    | ArrayMin

  /** Where a violation is reported: at a key, or at one element of an array under a key. */
  datatype Path = Key(field: FieldName) | Item(field: FieldName, index: nat)

  datatype Detail = Detail(path: Path, rule: RuleKind)

  /** Where Joi reports a repeated array element: at the array, or at the repeat's index. */
  datatype UniquePlacement = AtArray | AtDuplicate

  /**
   * What the model takes from Joi without restating it: which strings its
   * `uri()` accepts, and where it reports `array.unique`.
   */
  datatype Env = Env(isUri: string -> bool, uniqueAt: UniquePlacement)

  const MaxTitleLength: nat := 256
  const MaxDescriptionLength: nat := 2000
  const MaxCategoryLength: nat := 256
  /** The rating widget's maximum, 10, in half points. */
  const MaxRating: int := 20
  /** `Number.MAX_SAFE_INTEGER`, 2^53 - 1: Joi rejects any number beyond it (or below its negation) as unsafe. */
  const MaxSafeInteger: int := 0x1F_FFFF_FFFF_FFFF
  /** The day `new Date(null)` stands for, 1970-01-01. */
  const EpochDay: Day := 0

  const SubtypeValues: set<string> := {"ONA", "OVA", "TV", "movie"}
  const StatusValues: set<string> := {"current", "finished", "upcoming"}

  lemma EnumValuesAreTheMembers()
    ensures forall t :: SubtypeText(t) in SubtypeValues
    ensures forall s :: s in SubtypeValues ==> ParseSubtype(s).Some?
    ensures forall t :: StatusText(t) in StatusValues
    ensures forall s :: s in StatusValues ==> ParseStatus(s).Some?
  {
  }

  /**
   * The per-status part of the schema: which branch of each `Joi.when('status')`
   * applies. `rating` and `startDate` switch on UPCOMING, `endDate` and
   * `episodeCount` on FINISHED; a status string that is none of the three
   * takes every `otherwise` branch.
   */
  datatype StatusRules = StatusRules(
    ratingMustBeNull: bool,
    startAfterToday: bool,
    endDateClosed: bool,
    episodeCountRequired: bool)

  function RulesFor(status: string): (r: StatusRules)
    ensures r.ratingMustBeNull == r.startAfterToday == (status == StatusText(Upcoming))
    ensures r.endDateClosed == r.episodeCountRequired == (status == StatusText(Finished))
  {
    match ParseStatus(status)
    case Some(Upcoming) => StatusRules(true, true, false, false)
    case Some(Finished) => StatusRules(false, false, true, true)
    case Some(Current) => StatusRules(false, false, false, false)
    case None => StatusRules(false, false, false, false)
  }

  /** The options of one `Joi.string()` key. `nullable` is `.allow(null).allow('')`. */
  datatype StringSpec = StringSpec(trim: bool, maxLength: Option<nat>, uri: bool, nullable: bool)

  const TitleSpec := StringSpec(true, Some(MaxTitleLength), false, false)
  const EnTitleSpec := StringSpec(true, Some(MaxTitleLength), false, true)
  const DescriptionSpec := StringSpec(true, Some(MaxDescriptionLength), false, false)
  const PosterImageSpec := StringSpec(true, None, true, false)
  const CoverImageSpec := StringSpec(true, None, true, true)

  /**
   * One string key: `null` is allowed only when nullable; the value is trimmed
   * first when asked; an empty value is allowed only when nullable; otherwise
   * every failing rule (length, then URI) is reported. Lengths are JavaScript's,
   * in UTF-16 code units.
   */
  function StringRule(f: FieldName, v: Option<string>, spec: StringSpec, env: Env): (r: seq<Detail>)
    ensures forall x :: x in r ==> x.path == Key(f)
    ensures |r| <= 2
    ensures forall x :: x in r ==> x.rule in {StringBase, StringEmpty, StringMax, StringUri}
  {
    match v
    case None => if spec.nullable then [] else [Detail(Key(f), StringBase)]
    case Some(raw) =>
      var s := if spec.trim then Trim(raw) else raw;
      if s == [] then
        (if spec.nullable then [] else [Detail(Key(f), StringEmpty)])
      else
        (if spec.maxLength.Some? && Utf16Length(s) > spec.maxLength.value then [Detail(Key(f), StringMax)] else [])
        + (if spec.uri && !env.isUri(s) then [Detail(Key(f), StringUri)] else [])
  }

  /** `Joi.string().valid(...)`: a value outside the list is one `any.only` violation. */
  function EnumRule(f: FieldName, s: string, allowed: set<string>): (r: seq<Detail>)
    ensures r == [] <==> s in allowed
    ensures forall x :: x in r ==> x.path == Key(f)
  {
    if s in allowed then [] else [Detail(Key(f), AnyOnly)]
  }

  /**
   * `rating`: exactly `null` when upcoming (`Joi.valid(null)`), otherwise a
   * number (no conversion from strings) between 0 and 10. A number beyond
   * the safe integers fails Joi's base check alone, before `min` and `max`.
   */
  function RatingRule(rating: Option<int>, rules: StatusRules): (r: seq<Detail>)
    ensures forall x :: x in r ==> x.path == Key(RatingField)
    ensures |r| <= 1
    ensures rules.ratingMustBeNull ==> (r == [] <==> rating.None?)
    ensures !rules.ratingMustBeNull ==> (r == [] <==> rating.Some? && 0 <= rating.value <= MaxRating)
  {
    if rules.ratingMustBeNull then
      (if rating.None? then [] else [Detail(Key(RatingField), AnyOnly)])
    else
      match rating
      case None => [Detail(Key(RatingField), NumberBase)]
      case Some(h) =>
        if h > 2 * MaxSafeInteger || h < -2 * MaxSafeInteger then [Detail(Key(RatingField), NumberUnsafe)]
        else if h < 0 then [Detail(Key(RatingField), NumberMin)]
        else if h > MaxRating then [Detail(Key(RatingField), NumberMax)]
        else []
  }

  /**
   * `startDate`: a required ISO date, strictly after today when upcoming,
   * otherwise from 1900-01-01 up to and including today.
   */
  function StartDateRule(start: DateField, today: Day, rules: StatusRules): (r: seq<Detail>)
    ensures forall x :: x in r ==> x.path == Key(StartDateField)
    ensures r == [] <==> start.Iso? && if rules.startAfterToday then start.day > today else MinStartDay <= start.day <= today
  {
    match start
    case NullDate => [Detail(Key(StartDateField), DateBase)]
    case InvalidDate => [Detail(Key(StartDateField), DateFormat)]
    case Iso(day) =>
      if rules.startAfterToday then
        (if day > today then [] else [Detail(Key(StartDateField), DateGreater)])
      else
        (if day < MinStartDay then [Detail(Key(StartDateField), DateMin)] else [])
        + (if day > today then [Detail(Key(StartDateField), DateMax)] else [])
  }

  /**
   * The day `Joi.ref('startDate')` resolves to: Joi turns the referenced value
   * into a date with `new Date(value)`, so `null` stands for 1970-01-01, and
   * only the text 'Invalid Date' gives no date.
   */
  function StartRefDay(start: DateField): Option<Day> {
    match start
    case Iso(day) => Some(day)
    case NullDate => Some(EpochDay)
    case InvalidDate => None
  }

  /** `.min(Joi.ref('startDate'))` on an end date: a violation when the start gives no date. */
  function NotBeforeStart(start: DateField, endDay: Day): (r: seq<Detail>)
    ensures forall x :: x in r ==> x.path == Key(EndDateField)
    ensures r == [] <==> StartRefDay(start).Some? && StartRefDay(start).value <= endDay
  {
    match StartRefDay(start)
    case Some(startDay) => if endDay < startDay then [Detail(Key(EndDateField), DateMin)] else []
    case None => [Detail(Key(EndDateField), AnyRef)]
  }

  /**
   * `endDate`: when finished, a required ISO date from the start date up to
   * today; otherwise `null`, or an ISO date strictly after today and not
   * before the start date.
   */
  function EndDateRule(start: DateField, end: DateField, today: Day, rules: StatusRules): (r: seq<Detail>)
    ensures forall x :: x in r ==> x.path == Key(EndDateField)
    ensures rules.endDateClosed ==> (r == [] <==> end.Iso? && NotBefore(start, end.day) && end.day <= today)
    ensures !rules.endDateClosed ==>
      (r == [] <==> end.NullDate? || (end.Iso? && end.day > today && NotBefore(start, end.day)))
  {
    match end
    case NullDate => if rules.endDateClosed then [Detail(Key(EndDateField), DateBase)] else []
    case InvalidDate => [Detail(Key(EndDateField), DateFormat)]
    case Iso(day) =>
      if rules.endDateClosed then
        NotBeforeStart(start, day) + (if day > today then [Detail(Key(EndDateField), DateMax)] else [])
      else
        (if day > today then [] else [Detail(Key(EndDateField), DateGreater)]) + NotBeforeStart(start, day)
  }

  /**
   * `episodeCount`: a safe integer of at least 1; `null` is allowed unless
   * finished. A count beyond the safe integers fails Joi's base check alone.
   */
  function EpisodeCountRule(count: Option<int>, rules: StatusRules): (r: seq<Detail>)
    ensures forall x :: x in r ==> x.path == Key(EpisodeCountField)
    ensures |r| <= 1
    ensures count.None? ==> (r == [] <==> !rules.episodeCountRequired)
    ensures count.Some? ==> (r == [] <==> 1 <= count.value <= MaxSafeInteger)
  {
    match count
    case None => if rules.episodeCountRequired then [Detail(Key(EpisodeCountField), NumberBase)] else []
    case Some(n) =>
      if n > MaxSafeInteger || n < -MaxSafeInteger then [Detail(Key(EpisodeCountField), NumberUnsafe)]
      else if n < 1 then [Detail(Key(EpisodeCountField), NumberMin)]
      else []
  }

  /**
   * One category, `Joi.string().trim().max(256)`, reported at its index; `t`
   * is the category once trimmed.
   */
  function ItemRule(t: string, i: nat): (r: seq<Detail>)
    ensures forall x :: x in r ==> x.path == Item(CategoriesField, i)
    ensures forall x :: x in r ==> x.rule == StringEmpty || x.rule == StringMax
    ensures r == [] <==> ItemOk(t)
  {
    if t == [] then [Detail(Item(CategoriesField, i), StringEmpty)]
    else if Utf16Length(t) > MaxCategoryLength then [Detail(Item(CategoriesField, i), StringMax)]
    else []
  }

  /** The categories as the item rule sees them, trimmed. */
  function TrimmedItems(items: seq<string>): (ts: seq<string>)
    ensures |ts| == |items|
    ensures forall i :: 0 <= i < |items| ==> ts[i] == Trim(items[i])
  {
    seq(|items|, i requires 0 <= i < |items| => Trim(items[i]))
  }

  /** The item rule applied to the trimmed categories `ts[from..]`, in index order. */
  function ItemsFrom(ts: seq<string>, from: nat): (r: seq<Detail>)
    requires from <= |ts|
    ensures forall x :: x in r ==> x.path.Item? && x.path.field == CategoriesField && from <= x.path.index < |ts|
    ensures forall x :: x in r ==> x.rule == StringEmpty || x.rule == StringMax
    decreases |ts| - from
  {
    if from == |ts| then [] else ItemRule(ts[from], from) + ItemsFrom(ts, from + 1)
  }

  /**
   * The values `array.unique` compares: an item that passed its own rule has
   * been replaced by its trimmed form, a failing one keeps its original text.
   */
  function UniqueKeys(items: seq<string>, ts: seq<string>): (keys: seq<string>)
    requires |ts| == |items|
    ensures |keys| == |items|
    ensures forall i :: 0 <= i < |items| ==> keys[i] == if ItemRule(ts[i], i) == [] then ts[i] else items[i]
  {
    seq(|items|, i requires 0 <= i < |items| => if ItemRule(ts[i], i) == [] then ts[i] else items[i])
  }

  /** The first index at or after `from` whose key already occurs before it. */
  function FirstRepeat(keys: seq<string>, from: nat): (r: Option<nat>)
    requires from <= |keys|
    ensures r.Some? ==> from <= r.value < |keys| && keys[r.value] in keys[..r.value]
    ensures r.Some? ==> forall j :: from <= j < r.value ==> keys[j] !in keys[..j]
    decreases |keys| - from
  {
    if from == |keys| then None
    else if keys[from] in keys[..from] then Some(from)
    else FirstRepeat(keys, from + 1)
  }

  /** `array.unique` stops at the first repeat and reports it once. */
  function UniqueRule(items: seq<string>, env: Env): (r: seq<Detail>)
    ensures |r| <= 1
    ensures forall x :: x in r ==> x.path.field == CategoriesField && x.rule == ArrayUnique
  {
    match FirstRepeat(UniqueKeys(items, TrimmedItems(items)), 0)
    case None => []
    case Some(i) =>
      [Detail(if env.uniqueAt == AtArray then Key(CategoriesField) else Item(CategoriesField, i), ArrayUnique)]
  }

  /**
   * `categories`: the item rule on every element (it runs first), then
   * `unique`, then `min(1)`.
   */
  function CategoriesRule(items: seq<string>, env: Env): (r: seq<Detail>)
    ensures forall x :: x in r ==> x.path.field == CategoriesField
    ensures forall x :: x in r ==> x.rule in {StringEmpty, StringMax, ArrayUnique, ArrayMin}
    ensures |items| == 0 ==> r == [Detail(Key(CategoriesField), ArrayMin)]
  {
    ItemsFrom(TrimmedItems(items), 0) + UniqueRule(items, env)
    + (if |items| == 0 then [Detail(Key(CategoriesField), ArrayMin)] else [])
  }

  /** The violations of one key of the draft, in the order Joi reports them. */
  function FieldRule(d: Draft, f: FieldName, today: Day, env: Env): (r: seq<Detail>)
    ensures forall x :: x in r ==> x.path.field == f
    ensures forall x :: x in r && x.path.Item? ==> f == CategoriesField
  {
    var rules := RulesFor(d.status);
    match f
    case TitleField => StringRule(f, Some(d.title), TitleSpec, env)
    case EnTitleField => StringRule(f, d.enTitle, EnTitleSpec, env)
    case DescriptionField => StringRule(f, Some(d.description), DescriptionSpec, env)
    case RatingField => RatingRule(d.rating, rules)
    case StartDateField => StartDateRule(d.startDate, today, rules)
    case EndDateField => EndDateRule(d.startDate, d.endDate, today, rules)
    case SubtypeField => EnumRule(f, d.subtype, SubtypeValues)
    case StatusField => EnumRule(f, d.status, StatusValues)
    case PosterImageField => StringRule(f, Some(d.posterImage), PosterImageSpec, env)
    case CoverImageField => StringRule(f, d.coverImage, CoverImageSpec, env)
    case EpisodeCountField => EpisodeCountRule(d.episodeCount, rules)
    case CategoriesField => CategoriesRule(d.categories, env)
  }

  /** The keys in the order the schema declares them. */
  const SchemaKeys: seq<FieldName> := [
    TitleField, EnTitleField, DescriptionField, RatingField, StartDateField, EndDateField,
    SubtypeField, StatusField, PosterImageField, CoverImageField, EpisodeCountField, CategoriesField]

  /** The violations of the keys `keys`, key after key. */
  function RulesOver(d: Draft, keys: seq<FieldName>, today: Day, env: Env): (r: seq<Detail>)
    ensures forall x :: x in r ==> x.path.field in keys
    ensures forall x :: x in r && x.path.Item? ==> x.path.field == CategoriesField
  {
    if keys == [] then [] else FieldRule(d, keys[0], today, env) + RulesOver(d, keys[1..], today, env)
  }

  /**
   * `schema.validate(d, { abortEarly: false })`: every violation of every key,
   * `today` being the day the validation runs.
   */
  function Validate(d: Draft, today: Day, env: Env): (r: seq<Detail>)
    ensures forall x :: x in r && x.path.Item? ==> x.path.field == CategoriesField
    ensures r == [] <==> forall f :: FieldRule(d, f, today, env) == []
  {
    RulesOverEmptyIff(d, SchemaKeys, today, env);
    AllKeysDeclared();
    RulesOver(d, SchemaKeys, today, env)
  }

  lemma {:induction false} RulesOverEmptyIff(d: Draft, keys: seq<FieldName>, today: Day, env: Env)
    ensures RulesOver(d, keys, today, env) == [] <==> forall f :: f in keys ==> FieldRule(d, f, today, env) == []
    decreases |keys|
  {
    if keys != [] {
      RulesOverEmptyIff(d, keys[1..], today, env);
      assert forall f :: f in keys <==> f == keys[0] || f in keys[1..];
    }
  }

  /** A draft passes the schema exactly when no key has a violation. */
  lemma AllKeysDeclared()
    ensures forall f :: f in SchemaKeys
  {
    forall f ensures f in SchemaKeys {
      SchemaKeysComplete(f);
    }
  }

  /** The schema declares every key of the draft. */
  lemma SchemaKeysComplete(f: FieldName)
    ensures f in SchemaKeys
  {
    match f
    case TitleField => assert SchemaKeys[0] == f;
    case EnTitleField => assert SchemaKeys[1] == f;
    case DescriptionField => assert SchemaKeys[2] == f;
    case RatingField => assert SchemaKeys[3] == f;
    case StartDateField => assert SchemaKeys[4] == f;
    case EndDateField => assert SchemaKeys[5] == f;
    case SubtypeField => assert SchemaKeys[6] == f;
    case StatusField => assert SchemaKeys[7] == f;
    case PosterImageField => assert SchemaKeys[8] == f;
    case CoverImageField => assert SchemaKeys[9] == f;
    case EpisodeCountField => assert SchemaKeys[10] == f;
    case CategoriesField => assert SchemaKeys[11] == f;
  }

  /** A required text: not empty and at most `max` UTF-16 code units once trimmed. */
  predicate RequiredText(s: string, max: nat) {
    0 < |Trim(s)| && Utf16Length(Trim(s)) <= max
  }

  /** An optional text: `null`, or at most `max` UTF-16 code units once trimmed (empty allowed). */
  predicate OptionalText(s: Option<string>, max: nat) {
    s.None? || Utf16Length(Trim(s.value)) <= max
  }

  /** An optional URI: `null`, empty once trimmed, or a URI once trimmed. */
  predicate OptionalUri(s: Option<string>, env: Env) {
    s.None? || Trim(s.value) == [] || env.isUri(Trim(s.value))
  }

  /** One category once trimmed: not empty and at most 256 UTF-16 code units. */
  predicate ItemOk(t: string) {
    0 < |t| && Utf16Length(t) <= MaxCategoryLength
  }

  /** Every category is allowed once trimmed. */
  predicate AllItemsOk(items: seq<string>) {
    forall i :: 0 <= i < |items| ==> ItemOk(Trim(items[i]))
  }

  /** No two categories are alike once trimmed. */
  predicate TrimDistinct(items: seq<string>) {
    forall i, j :: 0 <= i < j < |items| ==> Trim(items[i]) != Trim(items[j])
  }

  /** At least one category; each allowed once trimmed; no two alike once trimmed. */
  predicate CategoriesOk(items: seq<string>) {
    |items| >= 1 && AllItemsOk(items) && TrimDistinct(items)
  }

  /**
   * An end date on `endDay` is not before the start: a start date on or
   * before it, or no start at all (Joi compares with 1970-01-01 then); a start
   * that is not a date never passes.
   */
  predicate NotBefore(start: DateField, endDay: Day) {
    match start
    case Iso(startDay) => startDay <= endDay
    case NullDate => EpochDay <= endDay
    case InvalidDate => false
  }

  /**
   * The entry invariant of one key, stated declaratively and status by status,
   * independently of how violations are reported.
   */
  predicate KeyConforms(d: Draft, f: FieldName, today: Day, env: Env) {
    var upcoming := d.status == StatusText(Upcoming);
    var finished := d.status == StatusText(Finished);
    match f
    case TitleField => RequiredText(d.title, MaxTitleLength)
    case EnTitleField => OptionalText(d.enTitle, MaxTitleLength)
    case DescriptionField => RequiredText(d.description, MaxDescriptionLength)
    case RatingField =>
      if upcoming then d.rating.None? else d.rating.Some? && 0 <= d.rating.value <= MaxRating
    case StartDateField =>
      && d.startDate.Iso?
      && (if upcoming then d.startDate.day > today else MinStartDay <= d.startDate.day <= today)
    case EndDateField =>
      if finished then
        d.endDate.Iso? && NotBefore(d.startDate, d.endDate.day) && d.endDate.day <= today
      else
        || d.endDate.NullDate?
        || (d.endDate.Iso? && d.endDate.day > today && NotBefore(d.startDate, d.endDate.day))
    case SubtypeField => d.subtype in SubtypeValues
    case StatusField => d.status in StatusValues
    case PosterImageField => Trim(d.posterImage) != [] && env.isUri(Trim(d.posterImage))
    case CoverImageField => OptionalUri(d.coverImage, env)
    case EpisodeCountField =>
      (finished ==> d.episodeCount.Some?) && (d.episodeCount.Some? ==> 1 <= d.episodeCount.value <= MaxSafeInteger)
    case CategoriesField => CategoriesOk(d.categories)
  }

  /** The entry invariants the schema is meant to enforce: every key meets its own. */
  predicate Conforms(d: Draft, today: Day, env: Env) {
    forall f :: KeyConforms(d, f, today, env)
  }

  /** When upcoming, the rating must be exactly `null` and the start strictly after today. */
  lemma UpcomingRules(d: Draft, today: Day, env: Env)
    requires d.status == StatusText(Upcoming)
    ensures FieldRule(d, RatingField, today, env) == [] <==> d.rating.None?
    ensures FieldRule(d, StartDateField, today, env) == [] <==> d.startDate.Iso? && d.startDate.day > today
  {
  }

  /**
   * Otherwise the rating must be a number from 0 to 10 and the start date must
   * lie between 1900-01-01 and today.
   */
  lemma ReleasedRules(d: Draft, today: Day, env: Env)
    requires d.status != StatusText(Upcoming)
    ensures FieldRule(d, RatingField, today, env) == [] <==> d.rating.Some? && 0 <= d.rating.value <= MaxRating
    ensures FieldRule(d, StartDateField, today, env) == []
        <==> d.startDate.Iso? && MinStartDay <= d.startDate.day <= today
  {
  }

  /** When finished, the end date is required, not before the start and not after today, and the episode count is required. */
  lemma FinishedRules(d: Draft, today: Day, env: Env)
    requires d.status == StatusText(Finished)
    ensures FieldRule(d, EndDateField, today, env) == []
        <==> d.endDate.Iso? && NotBefore(d.startDate, d.endDate.day) && d.endDate.day <= today
    ensures FieldRule(d, EpisodeCountField, today, env) == []
        <==> d.episodeCount.Some? && 1 <= d.episodeCount.value <= MaxSafeInteger
  {
  }

  /** Otherwise the end date is `null`, or after today and not before the start; the episode count may be `null`. */
  lemma UnfinishedRules(d: Draft, today: Day, env: Env)
    requires d.status != StatusText(Finished)
    ensures FieldRule(d, EndDateField, today, env) == []
        <==> d.endDate.NullDate?
             || (d.endDate.Iso? && d.endDate.day > today && NotBefore(d.startDate, d.endDate.day))
    ensures FieldRule(d, EpisodeCountField, today, env) == []
        <==> d.episodeCount.None? || 1 <= d.episodeCount.value <= MaxSafeInteger
  {
  }

  lemma {:induction false} ItemsFromEmptyIff(ts: seq<string>, from: nat)
    requires from <= |ts|
    ensures ItemsFrom(ts, from) == [] <==> forall i :: from <= i < |ts| ==> ItemRule(ts[i], i) == []
    decreases |ts| - from
  {
    if from < |ts| {
      ItemsFromEmptyIff(ts, from + 1);
      var head := ItemRule(ts[from], from);
      var tail := ItemsFrom(ts, from + 1);
      assert ItemsFrom(ts, from) == head + tail;
      assert |head + tail| == |head| + |tail|;
    }
  }

  lemma {:induction false} FirstRepeatNoneIff(keys: seq<string>, from: nat)
    requires from <= |keys|
    ensures FirstRepeat(keys, from).None? <==> forall j :: from <= j < |keys| ==> keys[j] !in keys[..j]
    decreases |keys| - from
  {
    if from < |keys| {
      FirstRepeatNoneIff(keys, from + 1);
    }
  }

  /** No repeat is found exactly when all keys are pairwise distinct. */
  lemma NoRepeatIffDistinct(keys: seq<string>)
    ensures FirstRepeat(keys, 0).None? <==> forall i, j :: 0 <= i < j < |keys| ==> keys[i] != keys[j]
  {
    FirstRepeatNoneIff(keys, 0);
    if FirstRepeat(keys, 0).None? {
      forall i, j | 0 <= i < j < |keys| ensures keys[i] != keys[j] {
        assert keys[i] == keys[..j][i];
      }
    } else {
      var j := FirstRepeat(keys, 0).value;
      var i :| 0 <= i < j && keys[..j][i] == keys[j];
      assert keys[i] == keys[j];
    }
  }

  /**
   * The categories rule passes exactly when there is at least one category,
   * each is non-empty and at most 256 characters once trimmed, and no two are
   * alike once trimmed.
   */
  lemma CategoriesRuleIff(items: seq<string>, env: Env)
    ensures CategoriesRule(items, env) == [] <==> CategoriesOk(items)
  {
    var ts := TrimmedItems(items);
    CategoriesRuleParts(items, env);
    ItemsFromEmptyIff(ts, 0);
    ItemRulesIff(items);
    if forall i :: 0 <= i < |ts| ==> ItemRule(ts[i], i) == [] {
      KeysTrimmed(items);
      NoRepeatIffDistinct(ts);
      DistinctTrimmed(items);
    }
  }

  /** The trimmed items are pairwise distinct exactly when no two items trim alike. */
  lemma DistinctTrimmed(items: seq<string>)
    ensures var ts := TrimmedItems(items);
      (forall i, j :: 0 <= i < j < |ts| ==> ts[i] != ts[j]) <==> TrimDistinct(items)
  {
    var ts := TrimmedItems(items);
    forall i, j | 0 <= i < j < |ts| ensures ts[i] != ts[j] <==> Trim(items[i]) != Trim(items[j]) {
      assert ts[i] == Trim(items[i]) && ts[j] == Trim(items[j]);
    }
  }

  /** Every item passes its own rule exactly when every trimmed item has an allowed length. */
  lemma ItemRulesIff(items: seq<string>)
    ensures var ts := TrimmedItems(items);
      (forall i :: 0 <= i < |ts| ==> ItemRule(ts[i], i) == []) <==> AllItemsOk(items)
  {
    var ts := TrimmedItems(items);
    forall i | 0 <= i < |ts| ensures ItemRule(ts[i], i) == [] <==> ItemOk(Trim(items[i])) {
      assert ts[i] == Trim(items[i]);
    }
  }

  /** When every item passes its own rule, `array.unique` compares the trimmed items. */
  lemma KeysTrimmed(items: seq<string>)
    requires forall i :: 0 <= i < |items| ==> ItemRule(TrimmedItems(items)[i], i) == []
    ensures UniqueKeys(items, TrimmedItems(items)) == TrimmedItems(items)
  {
  }

  /** The categories rule is silent exactly when each of its three checks is. */
  lemma CategoriesRuleParts(items: seq<string>, env: Env)
    ensures CategoriesRule(items, env) == []
        <==> ItemsFrom(TrimmedItems(items), 0) == []
             && FirstRepeat(UniqueKeys(items, TrimmedItems(items)), 0).None?
             && |items| >= 1
  {
    var a := ItemsFrom(TrimmedItems(items), 0);
    var b := UniqueRule(items, env);
    var c: seq<Detail> := if |items| == 0 then [Detail(Key(CategoriesField), ArrayMin)] else [];
    assert CategoriesRule(items, env) == a + b + c;
    assert |a + b + c| == |a| + |b| + |c|;
  }

  /** A string key passes exactly when it is allowed-null, allowed-empty, or within its length and a URI where one is asked for. */
  lemma StringRuleIff(f: FieldName, v: Option<string>, spec: StringSpec, env: Env)
    requires spec.trim
    ensures StringRule(f, v, spec, env) == []
        <==> if v.None? || Trim(v.value) == [] then spec.nullable
             else (spec.maxLength.None? || Utf16Length(Trim(v.value)) <= spec.maxLength.value)
                  && (!spec.uri || env.isUri(Trim(v.value)))
  {
  }

  /** One key's rule passes exactly when the key meets its entry invariant. */
  lemma KeyRuleIff(d: Draft, f: FieldName, today: Day, env: Env)
    ensures FieldRule(d, f, today, env) == [] <==> KeyConforms(d, f, today, env)
  {
    match f
    case TitleField => StringRuleIff(f, Some(d.title), TitleSpec, env);
    case EnTitleField => StringRuleIff(f, d.enTitle, EnTitleSpec, env);
    case DescriptionField => StringRuleIff(f, Some(d.description), DescriptionSpec, env);
    case PosterImageField => StringRuleIff(f, Some(d.posterImage), PosterImageSpec, env);
    case CoverImageField => StringRuleIff(f, d.coverImage, CoverImageSpec, env);
    case RatingField =>
      if d.status == StatusText(Upcoming) {
        UpcomingRules(d, today, env);
      } else {
        ReleasedRules(d, today, env);
      }
    case StartDateField =>
      if d.status == StatusText(Upcoming) {
        UpcomingRules(d, today, env);
      } else {
        ReleasedRules(d, today, env);
      }
    case EndDateField =>
      if d.status == StatusText(Finished) {
        FinishedRules(d, today, env);
      } else {
        UnfinishedRules(d, today, env);
      }
    case EpisodeCountField =>
      if d.status == StatusText(Finished) {
        FinishedRules(d, today, env);
      } else {
        UnfinishedRules(d, today, env);
      }
    case SubtypeField =>
    case StatusField =>
    case CategoriesField => CategoriesRuleIff(d.categories, env);
  }

  /** The rule table accepts a draft exactly when the draft meets the entry invariants. */
  lemma ValidateIffConforms(d: Draft, today: Day, env: Env)
    ensures Validate(d, today, env) == [] <==> Conforms(d, today, env)
  {
    forall f ensures FieldRule(d, f, today, env) == [] <==> KeyConforms(d, f, today, env) {
      KeyRuleIff(d, f, today, env);
    }
  }
}
