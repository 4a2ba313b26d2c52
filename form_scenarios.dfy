/**
 * Concrete drafts the form's behaviour is documented with: the categories
 * messages, and a complete new entry that is accepted as it stands and
 * rejected for its poster image alone once that is empty.
 */
module FormScenarios {
  import opened Wrappers
  import opened AnimeTypes
  import opened AnimeRules
  import opened ErrorMap

  /** No categories at all is reported once, for the list as a whole. */
  lemma NoCategoriesScenario(d: Draft, today: Day, env: Env)
    requires d.categories == []
    ensures At(ErrorsOf(Validate(d, today, env)), Group(General)) == Some(ArrayMin)
  {
    NoCategoriesViolations(env);
    var ds := FieldRule(d, CategoriesField, today, env);
    assert ds == [Detail(Key(CategoriesField), ArrayMin)];
    FirstInSingle(ds[0], Group(General));
    ErrorAtSlot(d, Group(General), today, env);
  }

  lemma NoCategoriesViolations(env: Env)
    ensures CategoriesRule([], env) == [Detail(Key(CategoriesField), ArrayMin)]
  {
    assert ItemsFrom(TrimmedItems([]), 0) == [];
    assert UniqueRule([], env) == [];
  }

  /** A repeated category is reported once, where Joi places `array.unique`. */
  lemma RepeatedCategoryScenario(d: Draft, today: Day, env: Env)
    requires d.categories == ["a", "a"]
    ensures env.uniqueAt == AtArray ==> At(ErrorsOf(Validate(d, today, env)), Group(General)) == Some(ArrayUnique)
    ensures env.uniqueAt == AtDuplicate ==> At(ErrorsOf(Validate(d, today, env)), Group(Index(1))) == Some(ArrayUnique)
  {
    var s := UniqueSlot(env);
    CategoriesKeyRule(d, today, env);
    RepeatedCategoryFirst(env);
    ErrorAtSlot(d, s, today, env);
  }

  /** The categories key is checked by the categories rule alone. */
  lemma CategoriesKeyRule(d: Draft, today: Day, env: Env)
    ensures FieldRule(d, CategoriesField, today, env) == CategoriesRule(d.categories, env)
  {
  }

  /** The slot `array.unique` is shown in for the repeat at index 1. */
  function UniqueSlot(env: Env): (s: Slot)
    ensures SlotField(s) == CategoriesField
  {
    if env.uniqueAt == AtArray then Group(General) else Group(Index(1))
  }

  lemma RepeatedCategoryFirst(env: Env)
    ensures FirstIn(CategoriesRule(["a", "a"], env), UniqueSlot(env)) == Some(ArrayUnique)
  {
    RepeatedCategoryViolations(env);
    if env.uniqueAt == AtArray {
      FirstInSingle(Detail(Key(CategoriesField), ArrayUnique), Group(General));
    } else {
      FirstInSingle(Detail(Item(CategoriesField, 1), ArrayUnique), Group(Index(1)));
    }
  }

  lemma RepeatedCategoryViolations(env: Env)
    ensures CategoriesRule(["a", "a"], env)
         == [Detail(if env.uniqueAt == AtArray then Key(CategoriesField) else Item(CategoriesField, 1), ArrayUnique)]
  {
    var items := ["a", "a"];
    var ts := TrimmedItems(items);
    RepeatedCategoryItems();
    RepeatedCategoryRepeat();
    assert UniqueRule(items, env)
        == [Detail(if env.uniqueAt == AtArray then Key(CategoriesField) else Item(CategoriesField, 1), ArrayUnique)];
    assert CategoriesRule(items, env) == [] + UniqueRule(items, env) + [];
  }

  /** Both copies of "a" pass the item rule. */
  lemma RepeatedCategoryItems()
    ensures TrimmedItems(["a", "a"]) == ["a", "a"]
    ensures ItemsFrom(TrimmedItems(["a", "a"]), 0) == []
  {
    TrimLetter('a');
    var ts := TrimmedItems(["a", "a"]);
    assert ts == ["a", "a"];
    ItemsFromEmptyIff(ts, 0);
  }

  /** The first repeat `array.unique` finds is at index 1. */
  lemma RepeatedCategoryRepeat()
    ensures FirstRepeat(UniqueKeys(["a", "a"], TrimmedItems(["a", "a"])), 0) == Some(1)
  {
    RepeatedCategoryItems();
    var keys := UniqueKeys(["a", "a"], ["a", "a"]);
    assert keys == ["a", "a"];
    assert keys[0] !in keys[..0];
    assert keys[1] in keys[..1];
  }

  /** An empty category is reported at its own index and its neighbour is not. */
  lemma BlankCategoryScenario(d: Draft, today: Day, env: Env)
    requires d.categories == ["", "b"]
    ensures At(ErrorsOf(Validate(d, today, env)), Group(Index(0))) == Some(StringEmpty)
    ensures At(ErrorsOf(Validate(d, today, env)), Group(Index(1))) == None
  {
    BlankCategoryViolations(env);
    var ds := FieldRule(d, CategoriesField, today, env);
    assert ds == [Detail(Item(CategoriesField, 0), StringEmpty)];
    FirstInSingle(ds[0], Group(Index(0)));
    assert FirstIn(ds[1..], Group(Index(1))) == None;
    assert FirstIn(ds, Group(Index(1))) == None;
    ErrorAtSlot(d, Group(Index(0)), today, env);
    ErrorAtSlot(d, Group(Index(1)), today, env);
  }

  lemma BlankCategoryViolations(env: Env)
    ensures CategoriesRule(["", "b"], env) == [Detail(Item(CategoriesField, 0), StringEmpty)]
  {
    TrimLetter('b');
    assert Text.Trim("") == "";
    var items := ["", "b"];
    var ts := TrimmedItems(items);
    assert ts == ["", "b"];
    var keys := UniqueKeys(items, ts);
    assert keys == ["", "b"];
    assert FirstRepeat(keys, 0) == None by {
      assert keys[0] !in keys[..0];
      assert keys[1] !in keys[..1];
    }
    assert ItemsFrom(ts, 2) == [];
    assert ItemsFrom(ts, 1) == [];
    assert ItemsFrom(ts, 0) == [Detail(Item(CategoriesField, 0), StringEmpty)];
  }

  lemma TrimLetter(c: char)
    requires !Text.IsSpace(c)
    ensures Text.Trim([c]) == [c]
  {
    Text.TrimLeavesTrimmed([c]);
  }

  const PosterUrl: string := "https://x/y.png"

  /**
   * A new finished entry: title "A", description "d", rating 8, from
   * 2020-01-01 to 2020-06-01, 12 episodes, one category "x".
   */
  function FinishedEntry(posterImage: string): Draft {
    Draft(
      title := "A", enTitle := Some(""), description := "d", rating := Some(16),
      startDate := Iso(DayNumber(2020, 1, 1)), endDate := Iso(DayNumber(2020, 6, 1)),
      subtype := "TV", status := "finished", posterImage := posterImage, coverImage := Some(""),
      episodeCount := Some(12), categories := ["x"])
  }

  /** From 2020-06-01 on, the entry conforms when its poster is a URI. */
  lemma FinishedEntryConforms(today: Day, env: Env)
    requires today >= DayNumber(2020, 6, 1) && env.isUri(PosterUrl)
    ensures Validate(FinishedEntry(PosterUrl), today, env) == []
  {
    var d := FinishedEntry(PosterUrl);
    forall f ensures KeyConforms(d, f, today, env) {
      FinishedEntryKey(f, today, env);
    }
    ValidateIffConforms(d, today, env);
  }

  lemma FinishedEntryKey(f: FieldName, today: Day, env: Env)
    requires today >= DayNumber(2020, 6, 1) && env.isUri(PosterUrl)
    ensures KeyConforms(FinishedEntry(PosterUrl), f, today, env)
  {
    FinishedTextKeys(today, env);
    FinishedDateKeys(today, env);
    FinishedOtherKeys(today, env);
  }

  lemma FinishedTextKeys(today: Day, env: Env)
    requires env.isUri(PosterUrl)
    ensures KeyConforms(FinishedEntry(PosterUrl), TitleField, today, env)
    ensures KeyConforms(FinishedEntry(PosterUrl), EnTitleField, today, env)
    ensures KeyConforms(FinishedEntry(PosterUrl), DescriptionField, today, env)
    ensures KeyConforms(FinishedEntry(PosterUrl), PosterImageField, today, env)
    ensures KeyConforms(FinishedEntry(PosterUrl), CoverImageField, today, env)
  {
    TrimLetter('A');
    TrimLetter('d');
    Text.TrimLeavesTrimmed(PosterUrl);
    Text.TrimLeavesTrimmed("");
  }

  lemma FinishedDateKeys(today: Day, env: Env)
    requires today >= DayNumber(2020, 6, 1)
    ensures KeyConforms(FinishedEntry(PosterUrl), StartDateField, today, env)
    ensures KeyConforms(FinishedEntry(PosterUrl), EndDateField, today, env)
  {
    DayNumberAnchors();
  }

  lemma FinishedOtherKeys(today: Day, env: Env)
    ensures KeyConforms(FinishedEntry(PosterUrl), RatingField, today, env)
    ensures KeyConforms(FinishedEntry(PosterUrl), SubtypeField, today, env)
    ensures KeyConforms(FinishedEntry(PosterUrl), StatusField, today, env)
    ensures KeyConforms(FinishedEntry(PosterUrl), EpisodeCountField, today, env)
    ensures KeyConforms(FinishedEntry(PosterUrl), CategoriesField, today, env)
  {
    TrimLetter('x');
    CategoriesRuleIff(FinishedEntry(PosterUrl).categories, env);
  }

  /**
   * A finished entry whose start date is cleared: its end date is compared
   * with 1970-01-01 and passes, so only the start date is reported.
   */
  lemma ClearedStartScenario(today: Day, env: Env)
    requires today >= DayNumber(2020, 6, 1)
    ensures FieldRule(FinishedEntry(PosterUrl).(startDate := NullDate), EndDateField, today, env) == []
    ensures FieldRule(FinishedEntry(PosterUrl).(startDate := NullDate), StartDateField, today, env)
         == [Detail(Key(StartDateField), DateBase)]
  {
    DayNumberAnchors();
  }

  /**
   * Characters beyond U+FFFF (emoji, say) are two UTF-16 code units each, so
   * a title of 129 to 256 of them is too long although it has no more than
   * 256 characters.
   */
  lemma WideTitleTooLong(t: string, env: Env)
    requires MaxTitleLength < 2 * |t| && |t| <= MaxTitleLength
    requires forall i :: 0 <= i < |t| ==> !Text.InBmp(t[i])
    ensures StringRule(TitleField, Some(t), TitleSpec, env) == [Detail(Key(TitleField), StringMax)]
  {
    assert !Text.IsSpace(t[0]) && !Text.IsSpace(t[|t| - 1]);
    Text.TrimLeavesTrimmed(t);
    Text.Utf16LengthBeyondBmp(t);
  }

  /**
   * An episode count typed beyond `Number.MAX_SAFE_INTEGER` is read by
   * `parseInt` and then rejected as unsafe, under any status.
   */
  lemma UnsafeEpisodeCount(n: int, rules: StatusRules)
    requires n > MaxSafeInteger
    ensures EpisodeCountRule(Text.ParseInt(Text.IntText(n)), rules) == [Detail(Key(EpisodeCountField), NumberUnsafe)]
  {
    Text.ParseIntRoundTrip(n);
  }

  /** An empty poster image breaks the poster image's rule and no other. */
  lemma EmptyPosterViolations(f: FieldName, today: Day, env: Env)
    requires today >= DayNumber(2020, 6, 1) && env.isUri(PosterUrl)
    ensures FieldRule(FinishedEntry(""), f, today, env)
         == if f == PosterImageField then [Detail(Key(PosterImageField), StringEmpty)] else []
  {
    if f == PosterImageField {
      Text.TrimLeavesTrimmed("");
    } else {
      var good := FinishedEntry(PosterUrl);
      var d := FinishedEntry("");
      FinishedEntryKey(f, today, env);
      KeyRuleIff(good, f, today, env);
      KeyRuleIff(d, f, today, env);
      assert KeyConforms(d, f, today, env) == KeyConforms(good, f, today, env);
    }
  }

  lemma EmptyPosterSlot(s: Slot, today: Day, env: Env)
    requires today >= DayNumber(2020, 6, 1) && env.isUri(PosterUrl)
    ensures At(ErrorsOf(Validate(FinishedEntry(""), today, env)), s)
         == At(map[PosterImageField := Message(StringEmpty)], s)
  {
    var d := FinishedEntry("");
    var f := SlotField(s);
    var ds := FieldRule(d, f, today, env);
    EmptyPosterViolations(f, today, env);
    ErrorAtSlot(d, s, today, env);
    if s == Whole(PosterImageField) {
      FirstInSingle(Detail(Key(PosterImageField), StringEmpty), s);
    } else {
      assert ds == [];
    }
  }

  /** With an empty poster image, the only error is the poster image's. */
  lemma EmptyPosterScenario(today: Day, env: Env)
    requires today >= DayNumber(2020, 6, 1) && env.isUri(PosterUrl)
    ensures ErrorsOf(Validate(FinishedEntry(""), today, env)) == map[PosterImageField := Message(StringEmpty)]
  {
    forall s ensures At(ErrorsOf(Validate(FinishedEntry(""), today, env)), s)
        == At(map[PosterImageField := Message(StringEmpty)], s)
    {
      EmptyPosterSlot(s, today, env);
    }
    SlotsDetermineErrors(ErrorsOf(Validate(FinishedEntry(""), today, env)), map[PosterImageField := Message(StringEmpty)]);
  }
}
