/**
 * Choosing the generative model from the service's model listing: prefer any
 * `gemini-1.5-flash`, then any `gemini-1.5-pro`, then the first model offered.
 */
module ModelSelection {
  import opened Wrappers
  import opened Strings

  /** One entry of the model listing: its name and the generation methods it supports. */
  datatype ModelInfo = ModelInfo(name: string, supportedMethods: seq<string>)

  const GenerateContent: string := "generateContent"
  const Flash: string := "gemini-1.5-flash"
  const Pro: string := "gemini-1.5-pro"
  const ModelsPrefix: string := "models/"

  /** `[m.name for m in models if 'generateContent' in m.supported_generation_methods]`. */
  function Available(models: seq<ModelInfo>): (names: seq<string>)
    ensures |names| <= |models|
    ensures forall n :: n in names <==> exists m :: m in models && GenerateContent in m.supportedMethods && m.name == n
  {
    if |models| == 0 then []
    else
      assert models == [models[0]] + models[1..];
      (if GenerateContent in models[0].supportedMethods then [models[0].name] else []) + Available(models[1..])
  }

  /** Filtering a listing in two parts gives the two filtered parts, in order. */
  lemma {:induction false} AvailableAppend(a: seq<ModelInfo>, b: seq<ModelInfo>)
    ensures Available(a + b) == Available(a) + Available(b)
  {
    if |a| > 0 {
      assert (a + b)[1..] == a[1..] + b;
      AvailableAppend(a[1..], b);
    } else {
      assert a + b == b;
    }
  }

  /** Some available name contains `family` as a substring. */
  predicate Offers(available: seq<string>, family: string)
    ensures family in available ==> Offers(available, family)
    ensures Offers(available, family) ==> |available| > 0
  {
    exists n :: n in available && Contains(n, family)
  }

  /**
   * The value `model_name` holds after the probe. `listing` is None when listing the
   * models raised, which the probe swallows. None here, or an empty name, stops the run.
   */
  function SelectModel(listing: Option<seq<ModelInfo>>): (r: Option<string>)
    ensures r.None? <==> listing.None? || Available(listing.value) == []
  {
    match listing
    case None => None
    case Some(models) =>
      var available := Available(models);
      if Offers(available, Flash) then Some(Flash)
      else if Offers(available, Pro) then Some(Pro)
      else if |available| > 0 then Some(RemoveAll(available[0], ModelsPrefix))
      else None
  }

  /** Whether the run goes on: `if not model_name` stops it on None and on the empty name alike. */
  predicate Usable(choice: Option<string>)
    ensures choice == None ==> !Usable(choice)
    ensures choice == Some("") ==> !Usable(choice)
    ensures choice.Some? && |choice.value| > 0 ==> Usable(choice)
  {
    choice.Some? && choice.value != ""
  }

  /**
   * The choice follows the preference order: flash whenever offered; pro whenever
   * offered and flash is not; otherwise the first available name with `models/` removed;
   * and no choice at all only when the listing failed or offers no model.
   */
  lemma SelectModelOrder(listing: Option<seq<ModelInfo>>)
    ensures var r := SelectModel(listing);
      && (r.None? <==> listing.None? || Available(listing.value) == [])
      && (r.Some? ==> var av := Available(listing.value);
           || (r.value == Flash && Offers(av, Flash))
           || (r.value == Pro && Offers(av, Pro) && !Offers(av, Flash))
           || (r.value == RemoveAll(av[0], ModelsPrefix) && !Offers(av, Flash) && !Offers(av, Pro)))
  {
  }

  /**
   * When a preferred family is offered, the choice depends only on which flash and pro names
   * are available, not on their order or on the other models in the listing.
   */
  lemma PreferredFamilyStable(a: seq<ModelInfo>, b: seq<ModelInfo>)
    requires Offers(Available(a), Flash) || Offers(Available(a), Pro)
    requires forall n :: n in Available(a) ==> n in Available(b)
    requires forall n :: n in Available(b) && (Contains(n, Flash) || Contains(n, Pro)) ==> n in Available(a)
    ensures SelectModel(Some(b)) == SelectModel(Some(a))
  {
  }

  /** Once a listing offers flash, adding models before or after it never displaces the flash choice. */
  lemma FlashKeptWhenListingGrows(a: seq<ModelInfo>, b: seq<ModelInfo>)
    requires Offers(Available(a), Flash)
    ensures SelectModel(Some(a + b)) == Some(Flash)
    ensures SelectModel(Some(b + a)) == Some(Flash)
  {
  }

  /**
   * Models that cannot generate content do not count as offering flash: when every
   * flash-named model lacks `generateContent`, the listing does not offer flash.
   */
  lemma UnsupportedModelIgnored(models: seq<ModelInfo>)
    requires forall m :: m in models && Contains(m.name, Flash) ==> GenerateContent !in m.supportedMethods
    ensures !Offers(Available(models), Flash)
  {
  }

  /** In the fallback the listing's `models/` prefix is dropped from the first name. */
  lemma {:induction false} FallbackDropsPrefix(rest: string, supported: seq<string>, more: seq<ModelInfo>)
    requires GenerateContent in supported
    requires !Contains(rest, ModelsPrefix)
    requires !Offers(Available([ModelInfo(ModelsPrefix + rest, supported)] + more), Flash)
    requires !Offers(Available([ModelInfo(ModelsPrefix + rest, supported)] + more), Pro)
    ensures SelectModel(Some([ModelInfo(ModelsPrefix + rest, supported)] + more)) == Some(rest)
  {
    var ms := [ModelInfo(ModelsPrefix + rest, supported)] + more;
    assert ms[1..] == more;
    assert Available(ms)[0] == ModelsPrefix + rest;
    LeadingRemoved(ModelsPrefix, rest);
    RemoveAllAbsent(rest, ModelsPrefix);
  }

  /**
   * A listing whose only usable model is named exactly `models/` yields the empty name,
   * which `if not model_name` treats like no model: the run stops although a model was offered.
   */
  lemma BarePrefixNameStopsRun(listing: Option<seq<ModelInfo>>)
    requires listing == Some([ModelInfo(ModelsPrefix, [GenerateContent])])
    ensures SelectModel(listing) == Some("")
    ensures !Usable(SelectModel(listing))
  {
  }

  /**
   * The run goes past the probe exactly when the listing came back, offers some model,
   * and either a preferred family is offered or the fallback name is more than `models/`.
   */
  lemma UsableExactly(listing: Option<seq<ModelInfo>>)
    ensures Usable(SelectModel(listing)) <==>
      listing.Some? && Available(listing.value) != [] &&
      (Offers(Available(listing.value), Flash) || Offers(Available(listing.value), Pro) ||
       RemoveAll(Available(listing.value)[0], ModelsPrefix) != "")
  {
  }
}
