/**
 * The older revision of the form, src/components/anime-form.tsx: the same
 * draft, a looser schema, an error map holding one message per key, no
 * validation on change, and a submit that trims some texts and always hands
 * the draft over.
 */
module LegacyForm {
  import opened Wrappers
  import opened Text
  import opened AnimeTypes
  import opened AnimeRules
  import opened AnimeFormSession

  /**
   * The older schema switches on status for the start date (upcoming) and the
   * end date (finished) only; rating and episode count do not depend on it.
   */
  function LegacyRulesFor(status: string): (r: StatusRules)
    ensures !r.ratingMustBeNull && !r.episodeCountRequired
    ensures r.startAfterToday == (status == StatusText(Upcoming))
    ensures r.endDateClosed == (status == StatusText(Finished))
  {
    RulesFor(status).(ratingMustBeNull := false, episodeCountRequired := false)
  }

  /** The image URLs are not trimmed before the URI check. */
  const LegacyPosterImageSpec := StringSpec(false, None, true, false)
  const LegacyCoverImageSpec := StringSpec(false, None, true, true)

  /** `endDate`: the finished rule of the new form, otherwise exactly `null` (`Joi.valid(null)`). */
  function LegacyEndDateRule(start: DateField, end: DateField, today: Day, rules: StatusRules): (r: seq<Detail>)
    ensures forall x :: x in r ==> x.path == Key(EndDateField)
    ensures !rules.endDateClosed ==> (r == [] <==> end.NullDate?)
  {
    if rules.endDateClosed then EndDateRule(start, end, today, rules)
    else if end.NullDate? then []
    else [Detail(Key(EndDateField), AnyOnly)]
  }

  /** The violations of one key under the older schema. */
  function LegacyFieldRule(d: Draft, f: FieldName, today: Day, env: Env): (r: seq<Detail>)
    ensures forall x :: x in r ==> x.path.field == f
  {
    var rules := LegacyRulesFor(d.status);
    match f
    case RatingField => RatingRule(d.rating, rules)
    case StartDateField => StartDateRule(d.startDate, today, rules)
    case EndDateField => LegacyEndDateRule(d.startDate, d.endDate, today, rules)
    case PosterImageField => StringRule(f, Some(d.posterImage), LegacyPosterImageSpec, env)
    case CoverImageField => StringRule(f, d.coverImage, LegacyCoverImageSpec, env)
    case EpisodeCountField => EpisodeCountRule(d.episodeCount, rules)
    // The older item schema adds `.min(1).required()`, so `[]` is first reported as
    // `array.includesRequiredUnknowns` rather than `array.min`: the same verdict, and
    // the older form never checks the categories key on its own.
    case _ => FieldRule(d, f, today, env)
  }

  /** The entry invariant the older schema enforces, key by key. */
  predicate LegacyKeyConforms(d: Draft, f: FieldName, today: Day, env: Env) {
    match f
    case RatingField => d.rating.Some? && 0 <= d.rating.value <= MaxRating
    case EndDateField =>
      if d.status == StatusText(Finished) then
        d.endDate.Iso? && NotBefore(d.startDate, d.endDate.day) && d.endDate.day <= today
      else d.endDate.NullDate?
    case PosterImageField => d.posterImage != [] && env.isUri(d.posterImage)
    case CoverImageField => d.coverImage.None? || d.coverImage.value == [] || env.isUri(d.coverImage.value)
    case EpisodeCountField => d.episodeCount.None? || 1 <= d.episodeCount.value <= MaxSafeInteger
    case _ => KeyConforms(d, f, today, env)
  }

  /** One key passes the older schema exactly when it meets the older entry invariant. */
  lemma LegacyKeyRuleIff(d: Draft, f: FieldName, today: Day, env: Env)
    ensures LegacyFieldRule(d, f, today, env) == [] <==> LegacyKeyConforms(d, f, today, env)
  {
    match f
    case RatingField =>
    case EndDateField =>
      if d.status == StatusText(Finished) {
        FinishedRules(d, today, env);
        assert LegacyFieldRule(d, f, today, env) == FieldRule(d, f, today, env);
      }
    case PosterImageField =>
    case CoverImageField =>
    case EpisodeCountField =>
    case StartDateField =>
      assert LegacyFieldRule(d, f, today, env) == FieldRule(d, f, today, env);
      KeyRuleIff(d, f, today, env);
    case _ => KeyRuleIff(d, f, today, env);
  }

  /** An upcoming entry may carry a rating under the older schema; the new one demands `null`. */
  lemma UpcomingRatingContrast(d: Draft, today: Day, env: Env)
    requires d.status == StatusText(Upcoming) && d.rating == Some(MaxRating)
    ensures LegacyFieldRule(d, RatingField, today, env) == []
    ensures FieldRule(d, RatingField, today, env) == [Detail(Key(RatingField), AnyOnly)]
  {
  }

  /** A finished entry may lack an episode count under the older schema, not under the new one. */
  lemma FinishedEpisodeCountContrast(d: Draft, today: Day, env: Env)
    requires d.status == StatusText(Finished) && d.episodeCount.None?
    ensures LegacyFieldRule(d, EpisodeCountField, today, env) == []
    ensures FieldRule(d, EpisodeCountField, today, env) == [Detail(Key(EpisodeCountField), NumberBase)]
  {
  }

  /** A blank poster URL reaches the URI check under the older schema; the new one reports it empty. */
  lemma BlankPosterContrast(d: Draft, today: Day, env: Env)
    requires d.posterImage == " " && !env.isUri(" ")
    ensures LegacyFieldRule(d, PosterImageField, today, env) == [Detail(Key(PosterImageField), StringUri)]
    ensures FieldRule(d, PosterImageField, today, env) == [Detail(Key(PosterImageField), StringEmpty)]
  {
    assert IsSpace(' ');
    assert TrimStart(" ") == TrimStart("");
  }

  /** The violations `schema.extract(f)` reports for the value `v` alone. */
  function LegacySingleKeyViolations(f: FieldName, v: FieldValue, today: Day, env: Env): (r: seq<Detail>)
    requires Fits(f, v)
    ensures forall x :: x in r ==> x.path.field == f
  {
    LegacyFieldRule(WithValue(Blank, f, v), f, today, env)
  }

  /**
   * Under the older schema only the start and end dates look at another key;
   * for every other key, checking its value alone is checking it in the draft.
   */
  lemma LegacySingleKeyAgreesWithSchema(d: Draft, f: FieldName, today: Day, env: Env)
    requires f != StartDateField && f != EndDateField
    ensures Fits(f, ValueOf(d, f))
    ensures LegacySingleKeyViolations(f, ValueOf(d, f), today, env) == LegacyFieldRule(d, f, today, env)
  {
    ValueOfFits(d, f);
    match f
    case TitleField =>
    case EnTitleField =>
    case DescriptionField =>
    case RatingField =>
    case SubtypeField =>
    case StatusField =>
    case PosterImageField =>
    case CoverImageField =>
    case EpisodeCountField =>
    case CategoriesField =>
  }

  /** A new entry: the new form's defaults, except that the start date is today. */
  function LegacyDefaults(today: Day): (d: Draft)
    ensures d == DefaultFields.(startDate := Iso(today))
  {
    Draft(
      title := "", enTitle := Some(""), description := "", rating := Some(MaxRating),
      startDate := Iso(today), endDate := NullDate, subtype := "TV", status := "finished",
      posterImage := "", coverImage := Some(""), episodeCount := None, categories := [""])
  }

  /** The older re-sync: any new start date other than `'Invalid Date'`, whatever the status. */
  predicate LegacyNeedsResync(d: Draft, preStartDate: DateField) {
    d.startDate != InvalidDate && preStartDate != d.startDate
  }

  function LegacyResync(d: Draft, preStartDate: DateField): (r: (Draft, DateField))
    ensures !LegacyNeedsResync(r.0, r.1)
    ensures LegacyNeedsResync(d, preStartDate) ==> r.0 == d.(endDate := d.startDate) && r.1 == d.startDate
    ensures !LegacyNeedsResync(d, preStartDate) ==> r == (d, preStartDate)
  {
    if LegacyNeedsResync(d, preStartDate) then (d.(endDate := d.startDate), d.startDate) else (d, preStartDate)
  }

  /**
   * The two re-syncs agree on a finished entry whose start date is a date; the
   * newer one also copies `'Invalid Date'` into the end date, the older one
   * never does.
   */
  lemma ResyncConditionsCompared(d: Draft, preStartDate: DateField)
    ensures d.status == StatusText(Finished) && d.startDate.Iso? ==>
      (NeedsResync(d, preStartDate) <==> LegacyNeedsResync(d, preStartDate))
    ensures d.startDate == InvalidDate ==> !LegacyNeedsResync(d, preStartDate)
    ensures d.startDate == InvalidDate && preStartDate != InvalidDate && d.status == StatusText(Finished) ==>
      NeedsResync(d, preStartDate) && Resync(d, preStartDate).0.endDate == InvalidDate
  {
  }

  lemma LegacyResyncIdempotent(d: Draft, preStartDate: DateField)
    ensures LegacyResync(LegacyResync(d, preStartDate).0, LegacyResync(d, preStartDate).1) == LegacyResync(d, preStartDate)
  {
  }

  /** The older re-sync also fires for an upcoming entry, and for a cleared start date. */
  lemma LegacyResyncIgnoresStatus(d: Draft, preStartDate: DateField)
    requires d.status == StatusText(Upcoming) && d.startDate == NullDate && preStartDate.Iso?
    ensures LegacyResync(d, preStartDate).0.endDate == NullDate
    ensures !NeedsResync(d, preStartDate)
  {
  }

  /** `!s ? s : s.trim()`: `null` and `''` are kept, any other text is trimmed. */
  function TrimIfTruthy(s: Option<string>): (r: Option<string>)
    ensures s.None? <==> r.None?
  {
    if s.None? || s.value == [] then s else Some(Trim(s.value))
  }

  /** Keeping `''` as it is agrees with trimming it: the guard only spares `null`. */
  lemma TrimIfTruthyIsTrim(s: Option<string>)
    ensures TrimIfTruthy(s) == if s.None? then None else Some(Trim(s.value))
  {
    if s.Some? && s.value == [] {
      assert Trim(s.value) == [];
    }
  }

  /** The draft the older submit hands over: five texts trimmed, the rest as entered. */
  function TrimForSubmit(d: Draft): (r: Draft)
    ensures r.title == Trim(d.title) && r.description == Trim(d.description) && r.posterImage == Trim(d.posterImage)
    ensures r.enTitle == TrimIfTruthy(d.enTitle) && r.coverImage == TrimIfTruthy(d.coverImage)
    ensures forall f :: f !in {TitleField, EnTitleField, DescriptionField, PosterImageField, CoverImageField} ==>
      ValueOf(r, f) == ValueOf(d, f)
  {
    d.(title := Trim(d.title), enTitle := TrimIfTruthy(d.enTitle), description := Trim(d.description),
       posterImage := Trim(d.posterImage), coverImage := TrimIfTruthy(d.coverImage))
  }

  /** Every text the older submit hands over has no surrounding white space. */
  lemma TrimForSubmitTrims(d: Draft)
    ensures var r := TrimForSubmit(d);
      && IsTrimmed(r.title) && IsTrimmed(r.description) && IsTrimmed(r.posterImage)
      && (r.enTitle.Some? ==> IsTrimmed(r.enTitle.value))
      && (r.coverImage.Some? ==> IsTrimmed(r.coverImage.value))
  {
    TrimIfTruthyIsTrim(d.enTitle);
    TrimIfTruthyIsTrim(d.coverImage);
  }

  /** Submitting a draft that was already trimmed hands it over again unchanged. */
  lemma TrimForSubmitIdempotent(d: Draft)
    ensures TrimForSubmit(TrimForSubmit(d)) == TrimForSubmit(d)
  {
    TrimIdempotent(d.title);
    TrimIdempotent(d.description);
    TrimIdempotent(d.posterImage);
    TrimIfTruthyIsTrim(d.enTitle);
    TrimIfTruthyIsTrim(d.coverImage);
    TrimIfTruthyIsTrim(TrimIfTruthy(d.enTitle));
    TrimIfTruthyIsTrim(TrimIfTruthy(d.coverImage));
    if d.enTitle.Some? {
      TrimIdempotent(d.enTitle.value);
    }
    if d.coverImage.Some? {
      TrimIdempotent(d.coverImage.value);
    }
  }

  /** The keys the older form stores from `handleChange` as raw text. */
  predicate IsRawTextField(f: FieldName) {
    IsTextField(f) || f == SubtypeField || f == StatusField
  }

  /** The value `handleChange` stores for the text `s` of a raw text key. */
  function RawInput(f: FieldName, s: string): (v: FieldValue)
    requires IsRawTextField(f)
    ensures Fits(f, v)
  {
    if IsTextField(f) then TextInput(f, s) else Text(s)
  }

  class LegacyAnimeForm {
    var fields: Draft
    var preStartDate: DateField
    /** One message per key; the older form never groups the categories' messages. */
    var errors: map<FieldName, RuleKind>
    /** The drafts handed to the submit callback, oldest first. */
    var submitted: seq<Draft>
    const env: Env

    constructor(today: Day, env: Env)
      ensures fields == LegacyDefaults(today) && preStartDate == Iso(today)
      ensures errors == map[] && submitted == [] && this.env == env
    {
      fields := LegacyDefaults(today);
      preStartDate := Iso(today);
      errors := map[];
      submitted := [];
      this.env := env;
    }

    /** The check made on every render. */
    method ResyncStartDate()
      modifies this`fields, this`preStartDate
      ensures (fields, preStartDate) == LegacyResync(old(fields), old(preStartDate))
    {
      if fields.startDate != InvalidDate && preStartDate != fields.startDate {
        fields := fields.(endDate := fields.startDate);
        preStartDate := fields.startDate;
      }
    }

    /**
     * `handleChange` for a text box or a select: the raw text is stored;
     * the episode count box stores `parseInt` of it, or `null`.
     */
    method HandleChange(f: FieldName, value: string)
      requires IsRawTextField(f) || f == EpisodeCountField
      modifies this`fields
      ensures f == EpisodeCountField ==> fields == old(fields).(episodeCount := ParseInt(value))
      ensures IsRawTextField(f) ==> fields == WithValue(old(fields), f, RawInput(f, value))
    {
      if f == EpisodeCountField {
        fields := fields.(episodeCount := ParseInt(value));
      } else {
        fields := WithValue(fields, f, RawInput(f, value));
      }
    }

    /** `handleChange` from the rating widget: its value (or `null`) is stored as it is. */
    method HandleRatingChange(value: Option<int>)
      modifies this`fields
      ensures fields == old(fields).(rating := value)
    {
      fields := fields.(rating := value);
    }

    /**
     * `validateField(f)`: the first violation of the value of `f` checked
     * alone becomes its message, or its message is removed; no other key
     * changes.
     */
    method ValidateField(f: FieldName, today: Day)
      modifies this`errors
      ensures Fits(f, ValueOf(fields, f))
      ensures var ds := LegacySingleKeyViolations(f, ValueOf(fields, f), today, env);
        errors == if ds == [] then old(errors) - {f} else old(errors)[f := ds[0].rule]
      ensures f != StartDateField && f != EndDateField ==>
        (f in errors <==> !LegacyKeyConforms(fields, f, today, env))
    {
      ValueOfFits(fields, f);
      var ds := LegacySingleKeyViolations(f, ValueOf(fields, f), today, env);
      if f != StartDateField && f != EndDateField {
        LegacySingleKeyAgreesWithSchema(fields, f, today, env);
        LegacyKeyRuleIff(fields, f, today, env);
      }
      if ds != [] {
        errors := errors[f := ds[0].rule];
      } else {
        errors := errors - {f};
      }
    }

    /**
     * `handleTextFieldBlur` on a named text box: the trimmed text is stored,
     * but the check reads the value from before the blur.
     */
    method HandleTextFieldBlur(f: FieldName, value: string, today: Day)
      requires IsTextField(f) && f != CoverImageField
      modifies this`fields, this`errors
      ensures fields == WithValue(old(fields), f, TextInput(f, Trim(value)))
      ensures Fits(f, ValueOf(old(fields), f))
      ensures var ds := LegacySingleKeyViolations(f, ValueOf(old(fields), f), today, env);
        errors == if ds == [] then old(errors) - {f} else old(errors)[f := ds[0].rule]
    {
      ValidateField(f, today);
      fields := WithValue(fields, f, TextInput(f, Trim(value)));
    }

    /** `handleDateChange`: the formatted date (or `null`) is stored; nothing is checked. */
    method HandleDateChange(f: FieldName, value: DateField)
      requires f == StartDateField || f == EndDateField
      modifies this`fields
      ensures fields == WithValue(old(fields), f, Date(value))
    {
      fields := WithValue(fields, f, Date(value));
    }

    /** `clearDate`: the date becomes `null`; nothing is checked. */
    method ClearDate(f: FieldName)
      requires f == StartDateField || f == EndDateField
      modifies this`fields
      ensures fields == WithValue(old(fields), f, Date(NullDate))
    {
      fields := WithValue(fields, f, Date(NullDate));
    }

    /**
     * `handleCategoryChange(idx, event?)`: without an event the category at
     * `idx` is removed, with one it is overwritten; nothing is checked.
     */
    method HandleCategoryChange(idx: nat, value: Option<string>)
      requires value.Some? ==> idx < |fields.categories|
      modifies this`fields
      ensures value.None? ==> fields == old(fields).(categories := Splice(old(fields.categories), idx))
      ensures value.Some? ==> fields == old(fields).(categories := old(fields.categories)[idx := value.value])
    {
      if value.None? {
        fields := fields.(categories := Splice(fields.categories, idx));
      } else {
        fields := fields.(categories := fields.categories[idx := value.value]);
      }
    }

    /** `addEmptyCategory`: appends an empty category; nothing is checked. */
    method AddEmptyCategory()
      modifies this`fields
      ensures fields == old(fields).(categories := old(fields.categories) + [""])
    {
      fields := fields.(categories := fields.categories + [""]);
    }

    /** `handleSubmit`: hands over the trimmed draft, whether or not it is valid. */
    method HandleSubmit()
      modifies this`submitted
      ensures submitted == old(submitted) + [TrimForSubmit(fields)]
    {
      submitted := submitted + [TrimForSubmit(fields)];
    }
  }
}
