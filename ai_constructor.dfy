/**
 * The check the AI app constructor runs on a generated application config
 * (`validateAppConfig` in `lib/services/aiConstructorService.ts`): the config
 * must be an object with an `app` object carrying a name, a description and
 * an app type, and a non-empty `collections` array whose every entry has a
 * name, a display name, an array of schema fields, permissions and workflows.
 * Every problem found is reported; the config is valid when none is.
 */
module AiConstructor {
  import opened Wrappers
  import opened Text
  import opened JsValues

  /** `{ valid, errors }`. */
  datatype Validation = Validation(valid: bool, errors: seq<string>)

  /** `v && typeof v === 'object'`. */
  predicate IsObject(v: JsValue) {
    Truthy(v) && IsObjectType(v)
  }

  /** `v && typeof v === 'string'`: a non-empty string. */
  predicate IsNonEmptyString(v: JsValue) {
    Truthy(v) && v.Str?
  }

  // ---------------------------------------------------------------- the checks

  /** The outcome of the three checks on `config.app` that follow the object check. */
  datatype AppChecks = AppChecks(name: bool, description: bool, appType: bool)

  function AppChecksOf(app: JsValue): AppChecks {
    AppChecks(IsNonEmptyString(Get(app, "name")), IsNonEmptyString(Get(app, "description")),
              IsNonEmptyString(Get(app, "app_type")))
  }

  /** `coll.schema && Array.isArray(coll.schema.fields)`. */
  predicate HasFields(coll: JsValue) {
    Truthy(Get(coll, "schema")) && Get(Get(coll, "schema"), "fields").Arr?
  }

  /** The outcome of the five checks on one entry of `collections`. */
  datatype EntryChecks = EntryChecks(name: bool, displayName: bool, fields: bool, permissions: bool, workflows: bool)

  function EntryChecksOf(coll: JsValue): EntryChecks {
    EntryChecks(Truthy(Get(coll, "name")), Truthy(Get(coll, "display_name")), HasFields(coll),
                IsObject(Get(coll, "permissions")), IsObject(Get(coll, "workflows")))
  }

  // ---------------------------------------------------------------- what a valid config is

  /** The `app` part the constructor needs. */
  predicate AppWellFormed(app: JsValue) {
    IsObject(app)
    && IsNonEmptyString(Get(app, "name"))
    && IsNonEmptyString(Get(app, "description"))
    && IsNonEmptyString(Get(app, "app_type"))
  }

  /** A collection the constructor can build. */
  predicate CollectionWellFormed(coll: JsValue) {
    Truthy(Get(coll, "name"))
    && Truthy(Get(coll, "display_name"))
    && HasFields(coll)
    && IsObject(Get(coll, "permissions"))
    && IsObject(Get(coll, "workflows"))
  }

  /** `Array.isArray(c) && c.length > 0`. */
  predicate NonEmptyArray(c: JsValue) {
    c.Arr? && |c.items| > 0
  }

  /** A config the constructor accepts. */
  predicate WellFormed(config: JsValue) {
    IsObject(config)
    && AppWellFormed(Get(config, "app"))
    && NonEmptyArray(Get(config, "collections"))
    && forall i :: 0 <= i < |Get(config, "collections").items| ==> CollectionWellFormed(Get(config, "collections").items[i])
  }

  // ---------------------------------------------------------------- the messages

  const NotAnObject := "Config must be an object"
  const MissingApp := "Missing app object"
  const MissingName := "app.name is required (string)"
  const MissingDescription := "app.description is required (string)"
  const MissingAppType := "app.app_type is required (string)"
  const NoCollections := "collections must be a non-empty array"

  /** The one message a failed check pushes, or nothing. */
  function FieldError(passed: bool, message: string): seq<string> {
    if passed then [] else [message]
  }

  /** The errors about `config.app`, in the order they are pushed. */
  function AppErrors(isObject: bool, c: AppChecks): seq<string> {
    if !isObject then [MissingApp]
    else FieldError(c.name, MissingName) + FieldError(c.description, MissingDescription) + FieldError(c.appType, MissingAppType)
  }

  /** `collections[${i}]`. */
  function CollectionPath(i: nat): string {
    "collections[" + NatToString(i) + "]"
  }

  /** The errors about entry `i` of `collections`, in the order they are pushed. */
  function EntryErrors(c: EntryChecks, i: nat): seq<string> {
    var at := CollectionPath(i);
    FieldError(c.name, at + ".name is required")
    + FieldError(c.displayName, at + ".display_name is required")
    + FieldError(c.fields, at + ".schema.fields must be an array")
    + FieldError(c.permissions, at + ".permissions is required")
    + FieldError(c.workflows, at + ".workflows is required")
  }

  /**
   * The errors about the entries of `collections`, or `None` when reading
   * `coll.name` of a `null` or `undefined` entry throws.
   */
  function ItemsErrors(items: seq<JsValue>): Option<seq<string>> {
    if items == [] then Some([])
    else
      var n := |items| - 1;
      var before := ItemsErrors(items[..n]);
      if before.None? || IsNullish(items[n]) then None
      else Some(before.value + EntryErrors(EntryChecksOf(items[n]), n))
  }

  /** One more entry that is not nullish appends its own errors. */
  lemma ItemsErrorsStep(items: seq<JsValue>, i: nat)
    requires i < |items| && !IsNullish(items[i]) && ItemsErrors(items[..i]).Some?
    ensures ItemsErrors(items[..i + 1]) == Some(ItemsErrors(items[..i]).value + EntryErrors(EntryChecksOf(items[i]), i))
  {
    assert items[..i + 1][..i] == items[..i];
  }

  /** The accumulated list after one more entry that is not nullish. */
  lemma CollectStep(errors: seq<string>, items: seq<JsValue>, i: nat, acc: seq<string>, acc': seq<string>)
    requires i < |items| && !IsNullish(items[i]) && ItemsErrors(items[..i]).Some?
    requires acc == errors + ItemsErrors(items[..i]).value
    requires acc' == acc + EntryErrors(EntryChecksOf(items[i]), i)
    ensures ItemsErrors(items[..i + 1]).Some? && acc' == errors + ItemsErrors(items[..i + 1]).value
  {
    ItemsErrorsStep(items, i);
    var x := ItemsErrors(items[..i]).value;
    var y := EntryErrors(EntryChecksOf(items[i]), i);
    AppendAssoc(errors, x, y);
  }

  lemma AppendAssoc(a: seq<string>, b: seq<string>, c: seq<string>)
    ensures a + b + c == a + (b + c)
  {
  }

  /** Reading `coll.name` of a `null` or `undefined` entry throws a `TypeError`. */
  const EntryTypeError := "TypeError"

  /** What `validateAppConfig` returns, or the error it throws. */
  function ValidationOf(config: JsValue): Result<Validation, string> {
    if !IsObject(config) then Ok(Validation(false, [NotAnObject]))
    else
      var app := Get(config, "app");
      var appErrors := AppErrors(IsObject(app), AppChecksOf(app));
      var collections := Get(config, "collections");
      if !NonEmptyArray(collections) then
        Ok(Validation(false, appErrors + [NoCollections]))
      else
        var rest := ItemsErrors(collections.items);
        if rest.None? then Err(EntryTypeError)
        else
          var errors := appErrors + rest.value;
          Ok(Validation(|errors| == 0, errors))
  }

  // ---------------------------------------------------------------- the check itself

  /** `validateAppConfig`: the checks push their messages onto one list; `forEach` walks the collections. */
  method ValidateAppConfig(config: JsValue) returns (r: Result<Validation, string>)
    ensures r == ValidationOf(config)
  {
    if !IsObject(config) {
      return Ok(Validation(false, [NotAnObject]));
    }
    var errors := CheckApp(Get(config, "app"));
    var collections := Get(config, "collections");
    if !NonEmptyArray(collections) {
      errors := errors + [NoCollections];
    } else {
      var checked := CheckCollections(errors, collections.items);
      if checked.None? {
        return Err(EntryTypeError);
      }
      errors := checked.value;
    }
    return Ok(Validation(|errors| == 0, errors));
  }

  /** `collections.forEach(...)`, pushing onto `errors`; `None` when an entry throws. */
  method CheckCollections(errors: seq<string>, items: seq<JsValue>) returns (out: Option<seq<string>>)
    ensures out.None? <==> ItemsErrors(items).None?
    ensures out.Some? ==> out.value == errors + ItemsErrors(items).value
  {
    var acc := errors;
    for i := 0 to |items|
      invariant ItemsErrors(items[..i]).Some?
      invariant acc == errors + ItemsErrors(items[..i]).value
    {
      var coll := items[i];
      if IsNullish(coll) {
        NullishThrows(items, i);
        return None;
      }
      ghost var before := acc;
      acc := PushEntryErrors(acc, EntryChecksOf(coll), i);
      CollectStep(errors, items, i, before, acc);
    }
    assert items[..|items|] == items;
    return Some(acc);
  }

  /** The checks on `config.app`, pushing onto the empty error list. */
  method CheckApp(app: JsValue) returns (out: seq<string>)
    ensures out == AppErrors(IsObject(app), AppChecksOf(app))
  {
    out := [];
    if !IsObject(app) {
      out := out + [MissingApp];
    } else {
      var c := AppChecksOf(app);
      if !c.name {
        out := out + [MissingName];
      }
      if !c.description {
        out := out + [MissingDescription];
      }
      if !c.appType {
        out := out + [MissingAppType];
      }
    }
  }

  /** The body of the `forEach` callback for entry `i`, pushing onto `errors`. */
  method PushEntryErrors(errors: seq<string>, c: EntryChecks, i: nat) returns (out: seq<string>)
    ensures out == errors + EntryErrors(c, i)
  {
    var at := CollectionPath(i);
    ghost var pushed := FieldError(c.name, at + ".name is required");
    out := PushUnless(errors, c.name, at + ".name is required");
    ghost var next := FieldError(c.displayName, at + ".display_name is required");
    out := PushUnless(out, c.displayName, at + ".display_name is required");
    AppendAssoc(errors, pushed, next);
    pushed, next := pushed + next, FieldError(c.fields, at + ".schema.fields must be an array");
    out := PushUnless(out, c.fields, at + ".schema.fields must be an array");
    AppendAssoc(errors, pushed, next);
    pushed, next := pushed + next, FieldError(c.permissions, at + ".permissions is required");
    out := PushUnless(out, c.permissions, at + ".permissions is required");
    AppendAssoc(errors, pushed, next);
    pushed, next := pushed + next, FieldError(c.workflows, at + ".workflows is required");
    out := PushUnless(out, c.workflows, at + ".workflows is required");
    AppendAssoc(errors, pushed, next);
  }

  /** `if (!check) errors.push(message)`. */
  method PushUnless(errors: seq<string>, passed: bool, message: string) returns (out: seq<string>)
    ensures out == errors + FieldError(passed, message)
  {
    out := errors;
    if !passed {
      out := out + [message];
    }
  }

  // ---------------------------------------------------------------- what the check promises

  /** Anything but an object gets exactly one error. */
  lemma NotAnObjectOneError(config: JsValue)
    requires !IsObject(config)
    ensures ValidationOf(config) == Ok(Validation(false, [NotAnObject]))
  {
  }

  /** The `app` errors: a missing app object alone, or one message per failed field check. */
  lemma AppErrorsIff(isObject: bool, c: AppChecks)
    ensures MissingApp in AppErrors(isObject, c) <==> !isObject
    ensures !isObject ==> AppErrors(isObject, c) == [MissingApp]
    ensures MissingName in AppErrors(isObject, c) <==> isObject && !c.name
    ensures MissingDescription in AppErrors(isObject, c) <==> isObject && !c.description
    ensures MissingAppType in AppErrors(isObject, c) <==> isObject && !c.appType
    ensures AppErrors(isObject, c) == [] <==> isObject && c.name && c.description && c.appType
    ensures NoCollections !in AppErrors(isObject, c)
  {
    assert |MissingApp| == 18 && |MissingName| == 29 && |MissingDescription| == 36 && |MissingAppType| == 33;
    assert |NoCollections| == 37;
  }

  /** The errors about one entry name exactly its failed checks, each under the entry's path. */
  lemma EntryErrorsIff(c: EntryChecks, i: nat)
    ensures var e := EntryErrors(c, i);
            var at := CollectionPath(i);
            (at + ".name is required" in e <==> !c.name)
            && (at + ".display_name is required" in e <==> !c.displayName)
            && (at + ".schema.fields must be an array" in e <==> !c.fields)
            && (at + ".permissions is required" in e <==> !c.permissions)
            && (at + ".workflows is required" in e <==> !c.workflows)
            && (e == [] <==> c.name && c.displayName && c.fields && c.permissions && c.workflows)
            && |e| <= 5
  {
    var at := CollectionPath(i);
    var m1, m2, m3 := at + ".name is required", at + ".display_name is required", at + ".schema.fields must be an array";
    var m4, m5 := at + ".permissions is required", at + ".workflows is required";
    assert |m1| == |at| + 17 && |m2| == |at| + 25 && |m3| == |at| + 31 && |m4| == |at| + 24 && |m5| == |at| + 22;
    FiveMessages(m1, m2, m3, m4, m5, c.name, c.displayName, c.fields, c.permissions, c.workflows);
  }

  /** Five messages of different lengths, each pushed when its check fails. */
  lemma FiveMessages(m1: string, m2: string, m3: string, m4: string, m5: string, p1: bool, p2: bool, p3: bool, p4: bool, p5: bool)
    requires |m1| != |m2| && |m1| != |m3| && |m1| != |m4| && |m1| != |m5|
    requires |m2| != |m3| && |m2| != |m4| && |m2| != |m5| && |m3| != |m4| && |m3| != |m5| && |m4| != |m5|
    ensures var e := FieldError(p1, m1) + FieldError(p2, m2) + FieldError(p3, m3) + FieldError(p4, m4) + FieldError(p5, m5);
            (m1 in e <==> !p1) && (m2 in e <==> !p2) && (m3 in e <==> !p3) && (m4 in e <==> !p4) && (m5 in e <==> !p5)
            && (e == [] <==> p1 && p2 && p3 && p4 && p5)
            && |e| <= 5
  {
  }

  /** Every entry message starts with `collections[`, so none is the missing-collections message. */
  lemma EntryErrorsNotNoCollections(c: EntryChecks, i: nat)
    ensures NoCollections !in EntryErrors(c, i)
  {
    var e := EntryErrors(c, i);
    var at := CollectionPath(i);
    assert at[11] == '[';
    assert NoCollections[11] == ' ';
    forall m | 0 <= m < |e|
      ensures e[m][11] == '['
    {
    }
  }

  /** An entry that neither throws nor fails a check. */
  predicate GoodEntry(coll: JsValue) {
    !IsNullish(coll) && CollectionWellFormed(coll)
  }

  predicate AllGood(items: seq<JsValue>) {
    forall i :: 0 <= i < |items| ==> GoodEntry(items[i])
  }

  lemma AllGoodSplit(items: seq<JsValue>)
    requires items != []
    ensures AllGood(items) <==> AllGood(items[..|items| - 1]) && GoodEntry(items[|items| - 1])
  {
    var init := items[..|items| - 1];
    assert forall i :: 0 <= i < |init| ==> init[i] == items[i];
  }

  /** An entry that does not throw has no error exactly when it is well formed. */
  lemma EntryEmptyIff(coll: JsValue, i: nat)
    ensures EntryErrors(EntryChecksOf(coll), i) == [] <==> CollectionWellFormed(coll)
  {
    EntryErrorsIff(EntryChecksOf(coll), i);
  }

  /** The entries yield no error exactly when none is `null` or `undefined` and every one is well formed. */
  lemma {:induction false} ItemsErrorsEmptyIff(items: seq<JsValue>)
    ensures ItemsErrors(items) == Some([]) <==> AllGood(items)
  {
    if items != [] {
      var n := |items| - 1;
      var init := items[..n];
      ItemsErrorsEmptyIff(init);
      AllGoodSplit(items);
      EntryEmptyIff(items[n], n);
      var before := ItemsErrors(init);
      if before.Some? && !IsNullish(items[n]) {
        ConcatEmpty(before.value, EntryErrors(EntryChecksOf(items[n]), n));
      }
    }
  }

  /** Some entry is `null` or `undefined`. */
  predicate AnyNullish(items: seq<JsValue>) {
    exists i :: 0 <= i < |items| && IsNullish(items[i])
  }

  lemma AnyNullishSplit(items: seq<JsValue>)
    requires items != []
    ensures AnyNullish(items) <==> AnyNullish(items[..|items| - 1]) || IsNullish(items[|items| - 1])
  {
    var n := |items| - 1;
    var init := items[..n];
    if AnyNullish(init) {
      var i :| 0 <= i < |init| && IsNullish(init[i]);
      assert items[i] == init[i];
    }
    if AnyNullish(items) && !IsNullish(items[n]) {
      var i :| 0 <= i < |items| && IsNullish(items[i]);
      assert init[i] == items[i];
    }
  }

  /** The last entry throws, or an entry before it did. */
  lemma ItemsThrowStep(items: seq<JsValue>)
    requires items != []
    ensures ItemsErrors(items).None? <==> ItemsErrors(items[..|items| - 1]).None? || IsNullish(items[|items| - 1])
  {
  }

  /** The entries make the check throw exactly when one of them is `null` or `undefined`. */
  lemma {:induction false} ItemsThrowIff(items: seq<JsValue>)
    ensures ItemsErrors(items).None? <==> AnyNullish(items)
  {
    if items != [] {
      ItemsThrowIff(items[..|items| - 1]);
      ItemsThrowStep(items);
      AnyNullishSplit(items);
    }
  }

  /** A `null` or `undefined` entry makes the check throw. */
  lemma NullishThrows(items: seq<JsValue>, i: nat)
    requires i < |items| && IsNullish(items[i])
    ensures ItemsErrors(items).None?
  {
    ItemsThrowIff(items);
    assert AnyNullish(items);
  }

  lemma ConcatEmpty(a: seq<string>, b: seq<string>)
    ensures a + b == [] <==> a == [] && b == []
  {
    if a + b == [] {
      assert |a + b| == |a| + |b|;
    }
  }

  /** No entry message is the missing-collections message. */
  lemma {:induction false} ItemsErrorsNotNoCollections(items: seq<JsValue>)
    requires ItemsErrors(items).Some?
    ensures NoCollections !in ItemsErrors(items).value
  {
    if items != [] {
      var n := |items| - 1;
      ItemsErrorsNotNoCollections(items[..n]);
      EntryErrorsNotNoCollections(EntryChecksOf(items[n]), n);
    }
  }

  /** A missing or empty `collections` array is reported, and only then. */
  lemma NoCollectionsIff(config: JsValue)
    requires ValidationOf(config).Ok? && IsObject(config)
    ensures NoCollections in ValidationOf(config).value.errors <==> !NonEmptyArray(Get(config, "collections"))
  {
    var app := Get(config, "app");
    AppErrorsIff(IsObject(app), AppChecksOf(app));
    var collections := Get(config, "collections");
    if NonEmptyArray(collections) {
      ItemsErrorsNotNoCollections(collections.items);
    }
  }

  /**
   * When the check returns, the config is valid exactly when the error list
   * is empty, and exactly when it is well formed.
   */
  lemma ValidIffWellFormed(config: JsValue)
    requires ValidationOf(config).Ok?
    ensures ValidationOf(config).value.valid <==> ValidationOf(config).value.errors == []
    ensures ValidationOf(config).value.valid <==> WellFormed(config)
  {
    if IsObject(config) {
      var app := Get(config, "app");
      AppEmptyIff(app);
      var collections := Get(config, "collections");
      if NonEmptyArray(collections) {
        ItemsErrorsEmptyIff(collections.items);
        ItemsThrowIff(collections.items);
        AllGoodIff(collections.items);
        ConcatEmpty(AppErrors(IsObject(app), AppChecksOf(app)), ItemsErrors(collections.items).value);
      }
    }
  }

  /** The `app` part yields no error exactly when it is well formed. */
  lemma AppEmptyIff(app: JsValue)
    ensures AppErrors(IsObject(app), AppChecksOf(app)) == [] <==> AppWellFormed(app)
  {
    AppErrorsIff(IsObject(app), AppChecksOf(app));
  }

  /** Entries none of which is `null` or `undefined` are all good exactly when they are all well formed. */
  lemma AllGoodIff(items: seq<JsValue>)
    requires forall i :: 0 <= i < |items| ==> !IsNullish(items[i])
    ensures AllGood(items) <==> forall i :: 0 <= i < |items| ==> CollectionWellFormed(items[i])
  {
  }

  /** The check throws exactly for an object config with a non-empty `collections` array holding a `null` or `undefined` entry. */
  lemma ThrowsIff(config: JsValue)
    ensures ValidationOf(config).Err? <==>
              IsObject(config) && NonEmptyArray(Get(config, "collections"))
              && exists i :: 0 <= i < |Get(config, "collections").items| && IsNullish(Get(config, "collections").items[i])
  {
    if IsObject(config) && NonEmptyArray(Get(config, "collections")) {
      ItemsThrowIff(Get(config, "collections").items);
    }
  }
}
