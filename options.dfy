/** `validateConfig` of the options page: a guard that returns false for a
    document without an array `websites`, then an `every` over the entries
    with its own copy of the entry callback. */
module Options {
  import opened JsValues
  import opened BackgroundConfig

  /** The options page's `every` callback, on an entry that is not null. */
  predicate EntryOk(site: Json)
    requires !site.Null?
  {
    && TruthyProp(Get(site, "url")) && IsString(Get(site, "url"))
    && TruthyProp(Get(site, "duration")) && IsNumber(Get(site, "duration"))
    && TruthyProp(Get(site, "tabReloadIntervalSeconds")) && IsNumber(Get(site, "tabReloadIntervalSeconds"))
  }

  /** The options page's `every` over the entries, left to right; a null entry throws. */
  function EveryEntry(sites: seq<Json>): Verdict {
    if sites == [] then Accepted
    else if sites[0].Null? then Threw
    else if EntryOk(sites[0]) then EveryEntry(sites[1..])
    else Rejected
  }

  /** The options validator: it returns early with a rejection unless the
      document is truthy and its `websites` is truthy and an array, and
      otherwise decides by its `every` over the entries. */
  function Validate(config: Json): Verdict {
    if !Truthy(config) || !TruthyProp(Get(config, "websites")) || !Get(config, "websites").v.Arr? then
      Rejected
    else
      EveryEntry(Get(config, "websites").v.elems)
  }

  /** The guard rejects a falsy document, a missing `websites` and one that is not an array. */
  lemma GuardRejects(config: Json)
    requires !Truthy(config) || !config.Obj? || "websites" !in config.members || !config.members["websites"].Arr?
    ensures Validate(config) == Rejected
  {
  }

  /** The two copies of `every` decide every list of entries alike. */
  lemma {:induction false} EveryEntryAgrees(sites: seq<Json>)
    ensures EveryEntry(sites) == Every(sites)
  {
    if sites != [] && !sites[0].Null? && EntryOk(sites[0]) {
      EveryEntryAgrees(sites[1..]);
    }
  }

  /** The options page accepts, rejects and throws on exactly the same
      documents as the background script. */
  lemma AgreesWithBackground(config: Json)
    ensures Validate(config) == BackgroundConfig.Validate(config)
  {
    if HasWebsites(config) {
      EveryEntryAgrees(Websites(config));
    }
  }

  /** So the options page accepts exactly the well-formed documents. */
  lemma AcceptsWellFormed(config: Json)
    ensures Validate(config) == Accepted <==> WellFormed(config)
  {
    AgreesWithBackground(config);
    ValidateAcceptsWellFormed(config);
  }

  /** One ill-formed entry that is not null, preceded only by well-formed
      ones, rejects the whole document. */
  lemma {:induction false} OneBadEntryRejects(config: Json, k: nat)
    requires HasWebsites(config) && k < |Websites(config)|
    requires !Websites(config)[k].Null? && !WellFormedSite(Websites(config)[k])
    requires forall j :: 0 <= j < k ==> WellFormedSite(Websites(config)[j])
    ensures Validate(config) == Rejected
  {
    var sites := Websites(config);
    AgreesWithBackground(config);
    EveryDecidedByFirstBad(sites);
  }
}
