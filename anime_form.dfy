/**
 * The create/edit form of src/components/new-anime/anime-form.tsx as a session
 * object: the draft being edited, the error map shown beside the inputs, the
 * start date last seen by the end-date re-sync, the "unknown error" notice,
 * and the drafts handed to the submit callback. Each handler is one user
 * event; like the component, it validates against the draft as it was before
 * the event, overlaid with the values the event changes. "now" is the
 * parameter `today`.
 */
module AnimeFormSession {
  import opened Wrappers
  import opened Text
  import opened AnimeTypes
  import opened AnimeRules
  import opened ErrorMap

  /** The fields of a new entry: a 10-point rating, TV, finished, and one empty category. */
  const DefaultFields: Draft := Draft(
    title := "", enTitle := Some(""), description := "", rating := Some(20),
    startDate := NullDate, endDate := NullDate, subtype := "TV", status := "finished",
    posterImage := "", coverImage := Some(""), episodeCount := None, categories := [""])

  lemma DefaultFieldsAreTheEnumDefaults()
    ensures DefaultFields.subtype == SubtypeText(TV) && DefaultFields.status == StatusText(Finished)
    ensures DefaultFields.rating == Some(MaxRating)
    ensures DefaultFields.startDate == NullDate && DefaultFields.endDate == NullDate
    ensures DefaultFields.episodeCount.None? && DefaultFields.categories == [[]]
    ensures forall f :: IsTextField(f) ==> ValueOf(DefaultFields, f) == TextInput(f, [])
  {
  }

  /** The keys edited through a text box. */
  predicate IsTextField(f: FieldName) {
    f == TitleField || f == EnTitleField || f == DescriptionField || f == PosterImageField || f == CoverImageField
  }

  /** The value a text box stores for the text `s`. */
  function TextInput(f: FieldName, s: string): (v: FieldValue)
    requires IsTextField(f)
    ensures Fits(f, v)
    ensures v == Text(s) || v == NullableText(Some(s))
  {
    if f == EnTitleField || f == CoverImageField then NullableText(Some(s)) else Text(s)
  }

  /** Values for some keys: the `newFields` argument of `validate`. */
  type Patch = map<FieldName, FieldValue>

  predicate PatchFits(p: Patch) {
    forall f :: f in p ==> Fits(f, p[f])
  }

  function Pick(d: Draft, p: Patch, f: FieldName): (v: FieldValue)
    requires PatchFits(p)
    ensures Fits(f, v)
  {
    ValueOfFits(d, f);
    if f in p then p[f] else ValueOf(d, f)
  }

  /** `{ ...fields, ...newFields }`: the patched keys take the patch's values, the rest keep the draft's. */
  function Overlay(d: Draft, p: Patch): (r: Draft)
    requires PatchFits(p)
    ensures forall f :: ValueOf(r, f) == if f in p then p[f] else ValueOf(d, f)
  {
    Draft(
      Pick(d, p, TitleField).text, Pick(d, p, EnTitleField).nullable, Pick(d, p, DescriptionField).text,
      Pick(d, p, RatingField).number, Pick(d, p, StartDateField).date, Pick(d, p, EndDateField).date,
      Pick(d, p, SubtypeField).text, Pick(d, p, StatusField).text, Pick(d, p, PosterImageField).text,
      Pick(d, p, CoverImageField).nullable, Pick(d, p, EpisodeCountField).number, Pick(d, p, CategoriesField).items)
  }

  lemma OverlayEmpty(d: Draft)
    ensures Overlay(d, map[]) == d
  {
    DraftExtensionality(Overlay(d, map[]), d);
  }

  /** Overlaying one key is storing its value. */
  lemma OverlaySingle(d: Draft, f: FieldName, v: FieldValue)
    requires Fits(f, v)
    ensures PatchFits(map[f := v])
    ensures Overlay(d, map[f := v]) == WithValue(d, f, v)
  {
    var p := map[f := v];
    var o := Overlay(d, p);
    var w := WithValue(d, f, v);
    forall g ensures ValueOf(o, g) == ValueOf(w, g) {
      if g == f {
        assert g in p;
      } else {
        assert g !in p;
      }
    }
    DraftExtensionality(o, w);
  }

  lemma OverlayRating(d: Draft, value: Option<int>)
    ensures PatchFits(map[RatingField := Number(value)])
    ensures Overlay(d, map[RatingField := Number(value)]) == d.(rating := value)
  {
    OverlaySingle(d, RatingField, Number(value));
  }

  lemma OverlayEndDate(d: Draft, value: DateField)
    ensures PatchFits(map[EndDateField := Date(value)])
    ensures Overlay(d, map[EndDateField := Date(value)]) == d.(endDate := value)
  {
    OverlaySingle(d, EndDateField, Date(value));
  }

  /** Overlaying the episode count with its own value changes nothing. */
  lemma OverlayEpisodeCount(d: Draft)
    ensures PatchFits(map[EpisodeCountField := Number(d.episodeCount)])
    ensures Overlay(d, map[EpisodeCountField := Number(d.episodeCount)]) == d
  {
    OverlaySingle(d, EpisodeCountField, Number(d.episodeCount));
    assert WithValue(d, EpisodeCountField, Number(d.episodeCount)) == d;
  }

  /** The copy loop of `validate`: each key of the patch in turn replaces the draft's value. */
  method ApplyPatch(d: Draft, p: Patch) returns (r: Draft)
    requires PatchFits(p)
    ensures r == Overlay(d, p)
  {
    r := d;
    var rest := p.Keys;
    while rest != {}
      invariant rest <= p.Keys
      invariant forall f :: ValueOf(r, f) == if f in p && f !in rest then p[f] else ValueOf(d, f)
      decreases |rest|
    {
      var f :| f in rest;
      r := WithValue(r, f, p[f]);
      rest := rest - {f};
    }
    DraftExtensionality(r, Overlay(d, p));
  }

  /**
   * The draft `validateSingleField` builds: only the key being checked is
   * present, so `status` matches no `when` branch and `startDate` is missing.
   */
  const Blank: Draft := Draft("", None, "", None, NullDate, NullDate, "", "", "", None, None, [])

  /** The keys whose rule depends on no other key. */
  predicate IsSelfContained(f: FieldName) {
    f !in {RatingField, StartDateField, EndDateField, EpisodeCountField}
  }

  /** The violations `schema.extract(f)` reports for the value `v` on its own. */
  function SingleKeyViolations(f: FieldName, v: FieldValue, today: Day, env: Env): (r: seq<Detail>)
    requires Fits(f, v)
    ensures forall x :: x in r ==> x.path.field == f
  {
    FieldRule(WithValue(Blank, f, v), f, today, env)
  }

  /**
   * For a key whose rule depends on no other key, checking its value alone
   * gives exactly the violations the whole schema reports for that key.
   */
  lemma SingleKeyAgreesWithSchema(d: Draft, f: FieldName, today: Day, env: Env)
    requires IsSelfContained(f)
    ensures Fits(f, ValueOf(d, f))
    ensures SingleKeyViolations(f, ValueOf(d, f), today, env) == FieldRule(d, f, today, env)
  {
    ValueOfFits(d, f);
    match f
    case TitleField =>
    case EnTitleField =>
    case DescriptionField =>
    case SubtypeField =>
    case StatusField =>
    case PosterImageField =>
    case CoverImageField =>
    case CategoriesField =>
  }

  /** The violations for one key are mapped under that key and no other. */
  lemma {:induction false} SingleKeyErrorsUnderKey(ds: seq<Detail>, f: FieldName)
    requires forall x :: x in ds ==> x.path.field == f
    requires forall x :: x in ds && x.path.Item? ==> f == CategoriesField
    ensures ErrorsOf(ds).Keys == if ds == [] then {} else {f}
  {
    ErrorsOfFirstWins(ds);
    if ds != [] {
      assert ds[0] in ds;
      assert SlotOf(ds[0].path).Some? && SlotField(SlotOf(ds[0].path).value) == f;
      forall g | g in ErrorsOf(ds) ensures g == f {
        var k :| 0 <= k < |ds| && SlotOf(ds[k].path).Some? && SlotField(SlotOf(ds[k].path).value) == g;
        assert ds[k] in ds;
      }
    }
  }

  /** Whether the end date must be re-synchronised to a start date the re-sync has not seen yet. */
  predicate NeedsResync(d: Draft, preStartDate: DateField) {
    preStartDate != d.startDate && d.startDate != NullDate && d.status == StatusText(Finished)
  }

  /** The render-time re-sync: a new start date of a finished entry becomes its end date too. */
  function Resync(d: Draft, preStartDate: DateField): (r: (Draft, DateField))
    ensures !NeedsResync(r.0, r.1)
    ensures NeedsResync(d, preStartDate) ==> r.0.endDate == d.startDate && r.1 == d.startDate
    ensures forall f :: f != EndDateField ==> ValueOf(r.0, f) == ValueOf(d, f)
    ensures !NeedsResync(d, preStartDate) ==> r == (d, preStartDate)
  {
    if NeedsResync(d, preStartDate) then (d.(endDate := d.startDate), d.startDate) else (d, preStartDate)
  }

  /** Re-syncing twice with the same start date is re-syncing once. */
  lemma ResyncIdempotent(d: Draft, preStartDate: DateField)
    ensures Resync(Resync(d, preStartDate).0, Resync(d, preStartDate).1) == Resync(d, preStartDate)
  {
  }

  /** Moving the start date of a finished entry from 2023-01-01 to 2023-02-01 moves its end date there too. */
  lemma ResyncExample(d: Draft)
    requires d.status == "finished"
    requires d.startDate == Iso(DayNumber(2023, 1, 1)) && d.endDate == Iso(DayNumber(2023, 6, 1))
    ensures Resync(d.(startDate := Iso(DayNumber(2023, 2, 1))), d.startDate).0.endDate == Iso(DayNumber(2023, 2, 1))
  {
  }

  /** `updatedCategories.splice(idx, 1)`: removes the item at `idx`, if there is one. */
  function Splice(items: seq<string>, idx: nat): (r: seq<string>)
    ensures idx < |items| ==> |r| == |items| - 1
    ensures idx >= |items| ==> r == items
    ensures forall i :: 0 <= i < idx && i < |r| ==> r[i] == items[i]
    ensures forall i :: idx <= i < |r| ==> r[i] == items[i + 1]
  {
    if idx < |items| then items[..idx] + items[idx + 1..] else items
  }

  /** Removing an item keeps every other item, in order, and drops only that one. */
  lemma SpliceMultiset(items: seq<string>, idx: nat)
    requires idx < |items|
    ensures multiset(Splice(items, idx)) + multiset{items[idx]} == multiset(items)
  {
    assert items == items[..idx] + [items[idx]] + items[idx + 1..];
  }

  /** The status select's values that take effect, and what each also resets. */
  function StatusPatch(value: string): (p: Patch)
    ensures PatchFits(p)
    ensures StatusField in p && p[StatusField] == Text(value)
    ensures value == StatusText(Upcoming) ==>
      p.Keys == {StatusField, EndDateField, RatingField} && p[EndDateField] == Date(NullDate) && p[RatingField] == Number(None)
    ensures value != StatusText(Upcoming) ==> p.Keys == {StatusField}
  {
    if value == StatusText(Upcoming) then
      map[StatusField := Text(value), EndDateField := Date(NullDate), RatingField := Number(None)]
    else
      map[StatusField := Text(value)]
  }

  /** The keys a status change re-validates. */
  const StatusScope: seq<FieldName> := [StatusField, StartDateField, EndDateField, EpisodeCountField, RatingField]

  /** The keys a date change re-validates: the end date, and for the start date the end date too. */
  function DateScope(f: FieldName): (s: seq<FieldName>)
    ensures f in s && EndDateField in s
    ensures forall g :: g in s ==> g == f || g == EndDateField
  {
    if f == EndDateField then [f] else [f, EndDateField]
  }

  /** The banner under the buttons: the field errors take precedence over the unknown-error notice. */
  datatype Alert = NoAlert | FixHighlighted | UnknownInvalid

  function AlertShown(errors: Errors, unknownError: bool): (a: Alert)
    ensures a == FixHighlighted <==> errors != map[]
    ensures a == UnknownInvalid <==> errors == map[] && unknownError
  {
    if errors != map[] then FixHighlighted else if unknownError then UnknownInvalid else NoAlert
  }

  class AnimeForm {
    var fields: Draft
    var preStartDate: DateField
    var errors: Errors
    var unknownError: bool
    /** The drafts handed to the submit callback, oldest first. */
    var submitted: seq<Draft>
    const env: Env
    const isEditing: bool

    /** The error map always has the shape `mapJoiErrorToErrors` gives it. */
    ghost predicate Valid()
      reads this
    {
      WellShaped(errors)
    }

    /** A new entry starts from the defaults; an edited one from its own fields, without its id. */
    constructor(initialAnime: Option<Anime>, env: Env)
      ensures fields == (if initialAnime.Some? then initialAnime.value.fields else DefaultFields)
      ensures preStartDate == fields.startDate
      ensures errors == map[] && !unknownError && submitted == []
      ensures this.env == env && isEditing == initialAnime.Some?
      ensures Valid()
    {
      var seed := if initialAnime.Some? then initialAnime.value.fields else DefaultFields;
      fields := seed;
      preStartDate := seed.startDate;
      errors := map[];
      unknownError := false;
      submitted := [];
      this.env := env;
      isEditing := initialAnime.Some?;
    }

    /**
     * `validate(newFields, errorFields)`: checks the whole draft overlaid with
     * `patch`; without a scope the result replaces the error map, with one only
     * the scoped keys change. The answer is whether the overlaid draft conforms.
     */
    method Validate(patch: Patch, scope: Option<seq<FieldName>>, today: Day) returns (ok: bool)
      requires Valid() && PatchFits(patch)
      modifies this`errors
      ensures Valid()
      ensures ok <==> Conforms(Overlay(fields, patch), today, env)
      ensures scope.None? ==> errors == ErrorsOf(AnimeRules.Validate(Overlay(fields, patch), today, env))
      ensures scope.Some? ==>
        errors == Rescoped(old(errors), ErrorsOf(AnimeRules.Validate(Overlay(fields, patch), today, env)), Listed(scope.value))
    {
      var target := ApplyPatch(fields, patch);
      var ds := AnimeRules.Validate(target, today, env);
      var latest: Errors := map[];
      if ds != [] {
        latest := MapJoiErrorToErrors(ds);
      }
      if scope.None? {
        errors := latest;
      } else {
        ErrorsOfFirstWins(ds);
        RescopedWellShaped(errors, latest, Listed(scope.value));
        errors := ApplyScoped(errors, latest, scope.value);
      }
      ValidateIffConforms(target, today, env);
      ok := ds == [];
    }

    /**
     * `validateSingleField(name, value)`: checks `value` against the rule of
     * `f` alone; the entry of `f` becomes the result, every other entry stays.
     */
    method ValidateSingleField(f: FieldName, v: FieldValue, today: Day)
      requires Valid() && Fits(f, v)
      modifies this`errors
      ensures Valid()
      ensures errors == Rescoped(old(errors), ErrorsOf(SingleKeyViolations(f, v, today, env)), {f})
    {
      var ds := SingleKeyViolations(f, v, today, env);
      SingleKeyErrorsUnderKey(ds, f);
      RescopedSingle(errors, ErrorsOf(ds), f);
      if ds != [] {
        var latest := MapJoiErrorToErrors(ds);
        errors := errors[f := latest[f]];
      } else {
        errors := errors - {f};
      }
    }

    /** `handleChange`: a text box stores its raw text; the episode count box stores `parseInt` of it, or `null`. */
    method HandleChange(f: FieldName, value: string)
      requires IsTextField(f) || f == EpisodeCountField
      modifies this`fields
      ensures f == EpisodeCountField ==> fields == old(fields).(episodeCount := ParseInt(value))
      ensures IsTextField(f) ==> fields == WithValue(old(fields), f, TextInput(f, value))
    {
      if f == EpisodeCountField {
        fields := fields.(episodeCount := ParseInt(value));
      } else {
        fields := WithValue(fields, f, TextInput(f, value));
      }
    }

    /**
     * `handleSelectChange`: a status of the three takes effect (upcoming also
     * clears the end date and the rating) and re-validates the status-dependent
     * keys; any other status is ignored. A subtype is stored and checked alone.
     */
    method HandleSelectChange(f: FieldName, value: string, today: Day)
      requires f == StatusField || f == SubtypeField
      requires Valid()
      modifies this`fields, this`errors
      ensures Valid()
      ensures f == StatusField && value in StatusValues ==>
        && fields == Overlay(old(fields), StatusPatch(value))
        && errors == Rescoped(old(errors), ErrorsOf(AnimeRules.Validate(fields, today, env)), Listed(StatusScope))
      ensures f == StatusField && value !in StatusValues ==> fields == old(fields) && errors == old(errors)
      ensures f == SubtypeField ==>
        && fields == old(fields).(subtype := value)
        && errors == Rescoped(old(errors), ErrorsOf(SingleKeyViolations(f, Text(value), today, env)), {f})
    {
      if f == StatusField {
        if value in StatusValues {
          var p := StatusPatch(value);
          var _ := Validate(p, Some(StatusScope), today);
          fields := Overlay(fields, p);
        }
      } else {
        fields := fields.(subtype := value);
        ValidateSingleField(f, Text(value), today);
      }
    }

    /** `handleRatingChange`: stores the rating (or `null`) and re-validates the rating only. */
    method HandleRatingChange(value: Option<int>, today: Day)
      requires Valid()
      modifies this`fields, this`errors
      ensures Valid()
      ensures fields == old(fields).(rating := value)
      ensures errors == Rescoped(old(errors), ErrorsOf(AnimeRules.Validate(fields, today, env)), {RatingField})
    {
      var p := map[RatingField := Number(value)];
      OverlayRating(fields, value);
      ListedSingle(RatingField);
      var _ := Validate(p, Some([RatingField]), today);
      fields := fields.(rating := value);
    }

    /**
     * `handleTextFieldBlur`: a category or text box is trimmed, stored and
     * checked alone; leaving the episode count re-validates it against the
     * whole draft without changing it.
     */
    method HandleTextFieldBlur(f: FieldName, value: string, index: Option<nat>, today: Day)
      requires IsTextField(f) || f == EpisodeCountField || f == CategoriesField
      requires f == CategoriesField ==> index.Some? && index.value < |fields.categories|
      requires Valid()
      modifies this`fields, this`errors
      ensures Valid()
      ensures f == CategoriesField ==>
        && fields == old(fields).(categories := old(fields.categories)[index.value := Trim(value)])
        && errors == Rescoped(old(errors), ErrorsOf(SingleKeyViolations(f, List(fields.categories), today, env)), {f})
      ensures f == EpisodeCountField ==>
        && fields == old(fields)
        && errors == Rescoped(old(errors), ErrorsOf(AnimeRules.Validate(fields, today, env)), {f})
      ensures IsTextField(f) ==>
        && fields == WithValue(old(fields), f, TextInput(f, Trim(value)))
        && errors == Rescoped(old(errors), ErrorsOf(SingleKeyViolations(f, TextInput(f, Trim(value)), today, env)), {f})
    {
      if f == CategoriesField {
        var updated := fields.categories[index.value := Trim(value)];
        fields := fields.(categories := updated);
        ValidateSingleField(f, List(updated), today);
      } else if f == EpisodeCountField {
        var p := map[f := Number(fields.episodeCount)];
        OverlayEpisodeCount(fields);
        ListedSingle(f);
        var _ := Validate(p, Some([f]), today);
      } else {
        var v := TextInput(f, Trim(value));
        fields := WithValue(fields, f, v);
        ValidateSingleField(f, v, today);
      }
    }

    /**
     * `handleDateChange`: stores the formatted picker value (`null` when empty)
     * and re-validates it together with the end date.
     */
    method HandleDateChange(f: FieldName, value: DateField, today: Day)
      requires f == StartDateField || f == EndDateField
      requires Valid()
      modifies this`fields, this`errors
      ensures Valid()
      ensures fields == WithValue(old(fields), f, Date(value))
      ensures errors == Rescoped(old(errors), ErrorsOf(AnimeRules.Validate(fields, today, env)), Listed(DateScope(f)))
    {
      var p := map[f := Date(value)];
      var target := WithValue(fields, f, Date(value));
      OverlaySingle(fields, f, Date(value));
      assert Overlay(fields, p) == target;
      var _ := Validate(p, Some(DateScope(f)), today);
      fields := target;
    }

    /** `clearDate`: the same as picking no date. */
    method ClearDate(f: FieldName, today: Day)
      requires f == StartDateField || f == EndDateField
      requires Valid()
      modifies this`fields, this`errors
      ensures Valid()
      ensures fields == WithValue(old(fields), f, Date(NullDate))
      ensures errors == Rescoped(old(errors), ErrorsOf(AnimeRules.Validate(fields, today, env)), Listed(DateScope(f)))
    {
      HandleDateChange(f, NullDate, today);
    }

    /** `handleCategoryChange`: stores the raw text of one category; nothing is validated. */
    method HandleCategoryChange(idx: nat, value: string)
      requires idx < |fields.categories|
      modifies this`fields
      ensures fields == old(fields).(categories := old(fields.categories)[idx := value])
    {
      fields := fields.(categories := fields.categories[idx := value]);
    }

    /** `removeCategory`: removes one category and checks the remaining list alone. */
    method RemoveCategory(idx: nat, today: Day)
      requires Valid()
      modifies this`fields, this`errors
      ensures Valid()
      ensures fields == old(fields).(categories := Splice(old(fields.categories), idx))
      ensures errors == Rescoped(old(errors), ErrorsOf(SingleKeyViolations(CategoriesField, List(fields.categories), today, env)), {CategoriesField})
    {
      var updated := Splice(fields.categories, idx);
      fields := fields.(categories := updated);
      ValidateSingleField(CategoriesField, List(updated), today);
    }

    /** `addEmptyCategory`: appends an empty category; the list is checked only when it was empty before. */
    method AddEmptyCategory(today: Day)
      requires Valid()
      modifies this`fields, this`errors
      ensures Valid()
      ensures fields == old(fields).(categories := old(fields.categories) + [""])
      ensures |fields.categories| == 1 ==>
        errors == Rescoped(old(errors), ErrorsOf(SingleKeyViolations(CategoriesField, List([""]), today, env)), {CategoriesField})
      ensures |fields.categories| != 1 ==> errors == old(errors)
    {
      var updated := fields.categories + [""];
      fields := fields.(categories := updated);
      if |updated| == 1 {
        assert updated == [""];
        ValidateSingleField(CategoriesField, List(updated), today);
      }
    }

    /**
     * The check made on every render: when a finished entry's start date
     * differs from the one last seen, the end date follows it and is
     * re-validated.
     */
    method ResyncStartDate(today: Day)
      requires Valid()
      modifies this`fields, this`preStartDate, this`errors
      ensures Valid()
      ensures (fields, preStartDate) == Resync(old(fields), old(preStartDate))
      ensures NeedsResync(old(fields), old(preStartDate)) ==>
        errors == Rescoped(old(errors), ErrorsOf(AnimeRules.Validate(fields, today, env)), {EndDateField})
      ensures !NeedsResync(old(fields), old(preStartDate)) ==> errors == old(errors)
    {
      if preStartDate != fields.startDate && fields.startDate != NullDate && fields.status == StatusText(Finished) {
        var current := fields.startDate;
        var p := map[EndDateField := Date(current)];
        OverlayEndDate(fields, current);
        ListedSingle(EndDateField);
        var _ := Validate(p, Some([EndDateField]), today);
        fields := fields.(endDate := current);
        preStartDate := current;
      }
    }

    /**
     * `handleSubmit`: validates the whole draft and replaces the error map.
     * A conforming draft is handed to the submit callback as it stands; when
     * it does not conform and no error was shown before, the unknown-error
     * notice is raised.
     */
    method HandleSubmit(today: Day)
      requires Valid()
      modifies this`errors, this`unknownError, this`submitted
      ensures Valid()
      ensures errors == ErrorsOf(AnimeRules.Validate(fields, today, env))
      ensures Conforms(fields, today, env) ==> submitted == old(submitted) + [fields] && !unknownError && errors == map[]
      ensures !Conforms(fields, today, env) ==>
        && submitted == old(submitted)
        && unknownError == (old(errors) == map[] || old(unknownError))
        && errors != map[]
      ensures AlertShown(errors, unknownError) == if Conforms(fields, today, env) then NoAlert else FixHighlighted
    {
      var errorsShown := errors != map[];
      OverlayEmpty(fields);
      var ok := Validate(map[], None, today);
      NoErrorsIffValid(fields, today, env);
      if ok {
        unknownError := false;
        submitted := submitted + [fields];
      } else if !errorsShown {
        unknownError := true;
      }
    }
  }
}
