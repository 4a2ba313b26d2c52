/**
 * The form's error state (`Errors`) and how a list of Joi violations becomes
 * one: one message per key, except `categories`, whose messages are grouped
 * under `general` and under each item's index. Messages are identified by the
 * rule that produced them.
 */
module ErrorMap {
  import opened Wrappers
  import opened AnimeTypes
  import opened AnimeRules

  /** A key of the `categories` group: the array as a whole, or one item. */
  datatype CategoryKey = General | Index(i: nat)

  /** The entry under one key: a message, or for `categories` a group of messages. */
  datatype FieldError = Message(rule: RuleKind) | Grouped(entries: map<CategoryKey, RuleKind>)

  type Errors = map<FieldName, FieldError>

  /** The place in an `Errors` value where one message is shown. */
  datatype Slot = Whole(field: FieldName) | Group(key: CategoryKey)

  /** Where a violation's message goes; violations at an item of another key are dropped. */
  function SlotOf(p: Path): Option<Slot> {
    match p
    case Key(f) => if f == CategoriesField then Some(Group(General)) else Some(Whole(f))
    case Item(f, i) => if f == CategoriesField then Some(Group(Index(i))) else None
  }

  /** The message shown at slot `s` of `e`, if any. */
  function At(e: Errors, s: Slot): Option<RuleKind> {
    match s
    case Whole(f) =>
      if f in e && e[f].Message? then Some(e[f].rule) else None
    case Group(k) =>
      if CategoriesField in e && e[CategoriesField].Grouped? && k in e[CategoriesField].entries
      then Some(e[CategoriesField].entries[k]) else None
  }

  /**
   * The shape every `Errors` value of the form has: `categories` holds a
   * non-empty group, every other key a message.
   */
  predicate WellShaped(e: Errors) {
    forall f :: f in e ==>
      if f == CategoriesField then e[f].Grouped? && e[f].entries != map[] else e[f].Message?
  }

  /** The groups' entries so far; `{}` when `categories` has none yet. */
  function EntriesOf(e: Errors): map<CategoryKey, RuleKind> {
    if CategoriesField in e && e[CategoriesField].Grouped? then e[CategoriesField].entries else map[]
  }

  /** `{ [k]: rule, ...m }`: an entry already present wins. */
  function Prepend(m: map<CategoryKey, RuleKind>, k: CategoryKey, rule: RuleKind): (r: map<CategoryKey, RuleKind>)
    ensures k in r && r[k] == (if k in m then m[k] else rule)
    ensures forall j :: j != k ==> (j in r <==> j in m) && (j in m ==> r[j] == m[j])
  {
    if k in m then m else m[k := rule]
  }

  /** One step of `mapJoiErrorToErrors`: how one violation changes the map. */
  function Add(e: Errors, x: Detail): (r: Errors)
    ensures forall g :: g != x.path.field ==> (g in r <==> g in e) && (g in e ==> r[g] == e[g])
  {
    match x.path
    case Key(f) =>
      if f != CategoriesField then
        (if f in e then e else e[f := Message(x.rule)])
      else
        e[f := Grouped(Prepend(EntriesOf(e), General, x.rule))]
    case Item(f, i) =>
      if f == CategoriesField then e[f := Grouped(Prepend(EntriesOf(e), Index(i), x.rule))] else e
  }

  /** The map the violations `ds` produce, taken in order. */
  function ErrorsOf(ds: seq<Detail>): (e: Errors)
    ensures WellShaped(e)
    decreases |ds|
  {
    if ds == [] then map[]
    else
      var init := ErrorsOf(ds[..|ds| - 1]);
      AddWellShaped(init, ds[|ds| - 1]);
      Add(init, ds[|ds| - 1])
  }

  /** `mapJoiErrorToErrors`: walks the violations once, in order. */
  method MapJoiErrorToErrors(ds: seq<Detail>) returns (e: Errors)
    ensures e == ErrorsOf(ds)
    ensures WellShaped(e)
  {
    e := map[];
    var n := 0;
    while n < |ds|
      invariant 0 <= n <= |ds|
      invariant e == ErrorsOf(ds[..n])
      invariant WellShaped(e)
    {
      assert ds[..n + 1][..n] == ds[..n];
      AddWellShaped(e, ds[n]);
      e := Add(e, ds[n]);
      n := n + 1;
    }
    assert ds[..n] == ds;
  }

  lemma AddWellShaped(e: Errors, x: Detail)
    requires WellShaped(e)
    ensures WellShaped(Add(e, x))
  {
  }

  /** The rule of the first violation in `ds` whose message goes to slot `s`. */
  function FirstIn(ds: seq<Detail>, s: Slot): (r: Option<RuleKind>)
    ensures r.Some? <==> exists k :: 0 <= k < |ds| && SlotOf(ds[k].path) == Some(s)
    decreases |ds|
  {
    if ds == [] then None
    else if SlotOf(ds[0].path) == Some(s) then Some(ds[0].rule)
    else
      var r := FirstIn(ds[1..], s);
      assert forall k :: 1 <= k < |ds| ==> ds[k] == ds[1..][k - 1];
      r
  }
  /** A single violation decides its own slot. */
  lemma FirstInSingle(x: Detail, s: Slot)
    requires SlotOf(x.path) == Some(s)
    ensures FirstIn([x], s) == Some(x.rule)
  {
  }


  lemma {:induction false} FirstInSnoc(ds: seq<Detail>, x: Detail, s: Slot)
    ensures FirstIn(ds + [x], s)
         == if FirstIn(ds, s).Some? then FirstIn(ds, s)
            else if SlotOf(x.path) == Some(s) then Some(x.rule)
            else None
    decreases |ds|
  {
    if ds != [] {
      assert (ds + [x])[0] == ds[0];
      assert (ds + [x])[1..] == ds[1..] + [x];
      FirstInSnoc(ds[1..], x, s);
    } else {
      assert [] + [x] == [x];
    }
  }

  /**
   * The first violation for each slot wins: the message at every slot is the
   * first one reported there, and a key is present exactly when some
   * violation's message goes to it.
   */
  lemma {:induction false} ErrorsOfFirstWins(ds: seq<Detail>)
    ensures forall s :: At(ErrorsOf(ds), s) == FirstIn(ds, s)
    ensures forall f :: (f in ErrorsOf(ds)
        <==> exists k :: 0 <= k < |ds| && SlotOf(ds[k].path).Some? && SlotField(SlotOf(ds[k].path).value) == f)
    decreases |ds|
  {
    if ds != [] {
      var init := ds[..|ds| - 1];
      var x := ds[|ds| - 1];
      assert init + [x] == ds;
      ErrorsOfFirstWins(init);
      var e := ErrorsOf(init);
      assert ErrorsOf(ds) == Add(e, x);
      forall s ensures At(ErrorsOf(ds), s) == FirstIn(ds, s) {
        AtAdd(e, x, s);
        FirstInSnoc(init, x, s);
      }
      forall f ensures f in ErrorsOf(ds)
          <==> exists k :: 0 <= k < |ds| && SlotOf(ds[k].path).Some? && SlotField(SlotOf(ds[k].path).value) == f
      {
        KeysAdd(e, x, f);
        if f in e {
          var k :| 0 <= k < |init| && SlotOf(init[k].path).Some? && SlotField(SlotOf(init[k].path).value) == f;
          assert ds[k] == init[k];
        }
        if exists k :: 0 <= k < |ds| && SlotOf(ds[k].path).Some? && SlotField(SlotOf(ds[k].path).value) == f {
          var k :| 0 <= k < |ds| && SlotOf(ds[k].path).Some? && SlotField(SlotOf(ds[k].path).value) == f;
          if k < |init| {
            assert ds[k] == init[k];
          }
        }
      }
    }
  }

  /** One step keeps every message already shown and fills only the slot of the new violation. */
  lemma AtAdd(e: Errors, x: Detail, s: Slot)
    requires WellShaped(e)
    ensures At(Add(e, x), s)
         == if At(e, s).Some? then At(e, s)
            else if SlotOf(x.path) == Some(s) then Some(x.rule)
            else None
  {
  }

  /** One step adds at most the key of the new violation's slot. */
  lemma KeysAdd(e: Errors, x: Detail, f: FieldName)
    ensures f in Add(e, x) <==> f in e || (SlotOf(x.path).Some? && SlotField(SlotOf(x.path).value) == f)
  {
  }

  /** The key a slot belongs to. */
  function SlotField(s: Slot): FieldName {
    match s
    case Whole(f) => f
    case Group(_) => CategoriesField
  }

  /** Violations of the schema always have a slot: none of its keys but `categories` has items. */
  lemma ValidateViolationsHaveSlots(d: Draft, today: Day, env: Env)
    ensures forall x :: x in Validate(d, today, env) ==> SlotOf(x.path).Some?
  {
  }

  /** The schema's violations produce an empty map exactly when there are none. */
  lemma NoErrorsIffValid(d: Draft, today: Day, env: Env)
    ensures ErrorsOf(Validate(d, today, env)) == map[] <==> Conforms(d, today, env)
  {
    var ds := Validate(d, today, env);
    ErrorsOfFirstWins(ds);
    ValidateIffConforms(d, today, env);
    if ds != [] {
      ValidateViolationsHaveSlots(d, today, env);
      assert ds[0] in ds;
      var s := SlotOf(ds[0].path).value;
      assert SlotField(s) in ErrorsOf(ds);
    }
  }

  /** A well-shaped error map is determined by the message it shows at each slot. */
  lemma SlotsDetermineErrors(e1: Errors, e2: Errors)
    requires WellShaped(e1) && WellShaped(e2)
    requires forall s :: At(e1, s) == At(e2, s)
    ensures e1 == e2
  {
    GroupShown(e1, e2);
    GroupShown(e2, e1);
    forall f | f in e1 || f in e2 ensures f in e1 && f in e2 && e1[f] == e2[f] {
      if f == CategoriesField {
        var m1 := e1[f].entries;
        var m2 := e2[f].entries;
        forall k ensures (k in m1 <==> k in m2) && (k in m1 ==> m1[k] == m2[k]) {
          assert At(e1, Group(k)) == At(e2, Group(k));
        }
        assert m1 == m2;
      } else {
        assert At(e1, Whole(f)) == At(e2, Whole(f));
      }
    }
  }

  lemma GroupShown(e1: Errors, e2: Errors)
    requires WellShaped(e1) && WellShaped(e2)
    requires forall s :: At(e1, s) == At(e2, s)
    ensures CategoriesField in e1 ==> CategoriesField in e2
  {
    if CategoriesField in e1 {
      var k :| k in e1[CategoriesField].entries;
      assert At(e1, Group(k)).Some?;
    }
  }

  lemma {:induction false} FirstInAppend(a: seq<Detail>, b: seq<Detail>, s: Slot)
    ensures FirstIn(a + b, s) == if FirstIn(a, s).Some? then FirstIn(a, s) else FirstIn(b, s)
    decreases |a|
  {
    if a == [] {
      assert a + b == b;
    } else {
      assert (a + b)[0] == a[0];
      assert (a + b)[1..] == a[1..] + b;
      FirstInAppend(a[1..], b, s);
    }
  }

  /** Only violations of a slot's own key can land in that slot. */
  lemma FirstInOfOtherKey(d: Draft, f: FieldName, s: Slot, today: Day, env: Env)
    requires f != SlotField(s)
    ensures FirstIn(FieldRule(d, f, today, env), s) == None
  {
    var ds := FieldRule(d, f, today, env);
    assert forall k :: 0 <= k < |ds| ==> ds[k] in ds;
  }

  lemma {:induction false} FirstInRulesOver(d: Draft, keys: seq<FieldName>, s: Slot, today: Day, env: Env)
    ensures FirstIn(RulesOver(d, keys, today, env), s)
         == if SlotField(s) in keys then FirstIn(FieldRule(d, SlotField(s), today, env), s) else None
    decreases |keys|
  {
    if keys != [] {
      FirstInAppend(FieldRule(d, keys[0], today, env), RulesOver(d, keys[1..], today, env), s);
      FirstInRulesOver(d, keys[1..], s, today, env);
      if keys[0] != SlotField(s) {
        FirstInOfOtherKey(d, keys[0], s, today, env);
      }
    }
  }

  /**
   * The message validation shows at a slot is the first violation of that
   * slot's own key: the order in which Joi visits the other keys does not
   * matter.
   */
  lemma ErrorAtSlot(d: Draft, s: Slot, today: Day, env: Env)
    ensures At(ErrorsOf(Validate(d, today, env)), s) == FirstIn(FieldRule(d, SlotField(s), today, env), s)
  {
    ErrorsOfFirstWins(Validate(d, today, env));
    FirstInRulesOver(d, SchemaKeys, s, today, env);
    SchemaKeysComplete(SlotField(s));
  }

  /**
   * Merging a new validation into the previous errors for the keys in
   * `scope` only: a scoped key takes the new entry, or loses its entry when
   * the new validation has none; every other key keeps its previous entry.
   */
  function Rescoped(prev: Errors, latest: Errors, scope: set<FieldName>): (r: Errors)
    ensures forall f :: f in scope ==> (f in r <==> f in latest) && (f in latest ==> r[f] == latest[f])
    ensures forall f :: f !in scope ==> (f in r <==> f in prev) && (f in prev ==> r[f] == prev[f])
  {
    map f | (f in scope && f in latest) || (f !in scope && f in prev) :: if f in scope then latest[f] else prev[f]
  }

  lemma RescopedWellShaped(prev: Errors, latest: Errors, scope: set<FieldName>)
    requires WellShaped(prev) && WellShaped(latest)
    ensures WellShaped(Rescoped(prev, latest, scope))
  {
  }

  /** Re-scoping to one key whose new entries are at most that key sets or deletes that key. */
  lemma RescopedSingle(prev: Errors, latest: Errors, f: FieldName)
    requires latest.Keys <= {f}
    ensures Rescoped(prev, latest, {f}) == if f in latest then prev[f := latest[f]] else prev - {f}
  {
  }

  /** Widening the scope by one key copies or deletes that key and keeps the rest. */
  lemma RescopedStep(prev: Errors, latest: Errors, scope: set<FieldName>, f: FieldName)
    ensures Rescoped(prev, latest, scope + {f})
         == if f in latest then Rescoped(prev, latest, scope)[f := latest[f]] else Rescoped(prev, latest, scope) - {f}
  {
  }

  /**
   * The `errorFields.forEach` of `validate`: for each listed key, copy the
   * latest entry when there is one, otherwise delete the key.
   */
  method ApplyScoped(prev: Errors, latest: Errors, scope: seq<FieldName>) returns (e: Errors)
    ensures e == Rescoped(prev, latest, Listed(scope))
  {
    e := prev;
    var n := 0;
    while n < |scope|
      invariant 0 <= n <= |scope|
      invariant e == Rescoped(prev, latest, Listed(scope[..n]))
    {
      var f := scope[n];
      RescopedStep(prev, latest, Listed(scope[..n]), f);
      if f in latest {
        e := e[f := latest[f]];
      } else {
        e := e - {f};
      }
      assert scope[..n + 1] == scope[..n] + [f];
      ListedAppend(scope[..n], f);
      n := n + 1;
    }
    assert scope[..n] == scope;
  }

  /** The keys a list names. */
  function Listed(keys: seq<FieldName>): set<FieldName> {
    set f | f in keys
  }

  lemma ListedSingle(f: FieldName)
    ensures Listed([f]) == {f}
  {
  }

  lemma ListedAppend(keys: seq<FieldName>, f: FieldName)
    ensures Listed(keys + [f]) == Listed(keys) + {f}
  {
  }
}
