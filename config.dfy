/** The configuration document and `validateConfig` of background.js.
    The validator is evaluated with JavaScript's rules: it yields a truthy
    value, a falsy value, or throws (a `null` entry in `websites` makes the
    `every` callback read a property of null). */
module BackgroundConfig {
  import opened JsValues

  /** The outcome of evaluating a validator on a document. */
  datatype Verdict = Accepted | Rejected | Threw

  /** The `every` callback shared by both validators, applied to an entry
      that is not null: a truthy string url, a truthy number duration and
      a truthy number tabReloadIntervalSeconds. */
  predicate SiteOk(site: Json)
    requires !site.Null?
  {
    && TruthyProp(Get(site, "url")) && IsString(Get(site, "url"))
    && TruthyProp(Get(site, "duration")) && IsNumber(Get(site, "duration"))
    && TruthyProp(Get(site, "tabReloadIntervalSeconds")) && IsNumber(Get(site, "tabReloadIntervalSeconds"))
  }

  /** The `every` over the entries: left to right, stopping at the first
      entry the callback rejects; the callback throws on a null entry. */
  function Every(sites: seq<Json>): Verdict {
    if sites == [] then Accepted
    else if sites[0].Null? then Threw
    else if SiteOk(sites[0]) then Every(sites[1..])
    else Rejected
  }

  /** The background validator: a truthy document whose `websites` is truthy
      and an array, and then the `every` over its entries. */
  function Validate(config: Json): Verdict {
    if !Truthy(config) then Rejected
    else
      var websites := Get(config, "websites");
      if !TruthyProp(websites) then Rejected
      else if !websites.v.Arr? then Rejected
      else Every(websites.v.elems)
  }

  // ----- Reference definition, on the structure of the document alone -----

  /** An entry with a non-empty string url and nonzero numbers for both durations. */
  predicate WellFormedSite(e: Json) {
    && e.Obj?
    && "url" in e.members && e.members["url"].Str? && e.members["url"].s != ""
    && "duration" in e.members && e.members["duration"].Num? && e.members["duration"].n != 0
    && "tabReloadIntervalSeconds" in e.members
    && e.members["tabReloadIntervalSeconds"].Num? && e.members["tabReloadIntervalSeconds"].n != 0
  }

  /** The document has an array `websites`. */
  predicate HasWebsites(doc: Json) {
    doc.Obj? && "websites" in doc.members && doc.members["websites"].Arr?
  }

  function Websites(doc: Json): seq<Json>
    requires HasWebsites(doc)
  {
    doc.members["websites"].elems
  }

  /** An object whose `websites` is an array of well-formed entries, possibly none. */
  predicate WellFormed(doc: Json) {
    HasWebsites(doc) && forall i :: 0 <= i < |Websites(doc)| ==> WellFormedSite(Websites(doc)[i])
  }

  /** The index of the first entry that is not well formed, or |sites| if there is none. */
  function FirstBad(sites: seq<Json>): (k: nat)
    ensures k <= |sites|
    ensures forall j :: 0 <= j < k ==> WellFormedSite(sites[j])
    ensures k < |sites| ==> !WellFormedSite(sites[k])
  {
    if sites == [] then 0
    else if !WellFormedSite(sites[0]) then 0
    else 1 + FirstBad(sites[1..])
  }

  /** The callback accepts exactly the well-formed entries. */
  lemma SiteOkIsWellFormed(e: Json)
    requires !e.Null?
    ensures SiteOk(e) <==> WellFormedSite(e)
  {
  }

  /** `every` is decided by the first entry that is not well formed: none
      accepts, a null one throws, any other rejects. */
  lemma {:induction false} EveryDecidedByFirstBad(sites: seq<Json>)
    ensures var k := FirstBad(sites);
      Every(sites) == if k == |sites| then Accepted else if sites[k].Null? then Threw else Rejected
  {
    if sites != [] {
      if sites[0].Null? {
      } else {
        SiteOkIsWellFormed(sites[0]);
        if SiteOk(sites[0]) {
          EveryDecidedByFirstBad(sites[1..]);
        }
      }
    }
  }

  /** A document reaches `every` exactly when it is an object with an array `websites`. */
  lemma ValidateReachesEvery(doc: Json)
    ensures HasWebsites(doc) ==> Validate(doc) == Every(Websites(doc))
    ensures !HasWebsites(doc) ==> Validate(doc) == Rejected
  {
  }

  /** The validator accepts exactly the well-formed documents: an empty url,
      a zero duration or a zero reload interval anywhere rejects the whole
      document, while an empty `websites` array is accepted. */
  lemma ValidateAcceptsWellFormed(doc: Json)
    ensures Validate(doc) == Accepted <==> WellFormed(doc)
  {
    ValidateReachesEvery(doc);
    if HasWebsites(doc) {
      EveryDecidedByFirstBad(Websites(doc));
    }
  }

  /** The validator throws exactly when the first entry that is not well
      formed is null. */
  lemma ValidateThrowsOnNullEntry(doc: Json)
    ensures Validate(doc) == Threw <==>
      HasWebsites(doc) && FirstBad(Websites(doc)) < |Websites(doc)| && Websites(doc)[FirstBad(Websites(doc))].Null?
  {
    ValidateReachesEvery(doc);
    if HasWebsites(doc) {
      EveryDecidedByFirstBad(Websites(doc));
    }
  }

  // ----- The configuration the engine reads from an accepted document -----

  /** One entry of `websites`; durations are in seconds. */
  datatype Site = Site(url: string, duration: int, reloadSeconds: int)

  /** The fields of the document the engine consults, with the flags read
      by truthiness (`config.lazyLoadTabs`, ...). */
  datatype Config = Config(sites: seq<Site>, autoStart: bool, lazyLoadTabs: bool, closeExistingTabs: bool)

  function SiteOf(e: Json): Site
    requires WellFormedSite(e)
  {
    Site(e.members["url"].s, e.members["duration"].n, e.members["tabReloadIntervalSeconds"].n)
  }

  /** The configuration an accepted document describes: one site per entry,
      in order, each with a non-empty url and nonzero durations. */
  function Decode(doc: Json): (c: Config)
    requires WellFormed(doc)
    ensures |c.sites| == |Websites(doc)|
    ensures forall i :: 0 <= i < |c.sites| ==>
      && Get(Websites(doc)[i], "url") == Value(Str(c.sites[i].url))
      && Get(Websites(doc)[i], "duration") == Value(Num(c.sites[i].duration))
      && Get(Websites(doc)[i], "tabReloadIntervalSeconds") == Value(Num(c.sites[i].reloadSeconds))
    ensures forall i :: 0 <= i < |c.sites| ==>
      c.sites[i].url != "" && c.sites[i].duration != 0 && c.sites[i].reloadSeconds != 0
    ensures c.lazyLoadTabs == TruthyProp(Get(doc, "lazyLoadTabs"))
    ensures c.autoStart == TruthyProp(Get(doc, "autoStart"))
    ensures c.closeExistingTabs == TruthyProp(Get(doc, "closeExistingTabs"))
  {
    var entries := Websites(doc);
    Config(
      seq(|entries|, i requires 0 <= i < |entries| => SiteOf(entries[i])),
      TruthyProp(Get(doc, "autoStart")),
      TruthyProp(Get(doc, "lazyLoadTabs")),
      TruthyProp(Get(doc, "closeExistingTabs")))
  }

  // ----- Documents named by the source's behaviour -----

  function Entry(url: string, duration: int, reload: int): Json {
    Obj(map["url" := Str(url), "duration" := Num(duration), "tabReloadIntervalSeconds" := Num(reload)])
  }

  function Document(entries: seq<Json>): Json {
    Obj(map["websites" := Arr(entries)])
  }

  /** `{websites: []}` is accepted: `every` over no entries is true. */
  lemma EmptyWebsitesAccepted()
    ensures Validate(Document([])) == Accepted
  {
  }

  /** A zero duration or an empty url rejects the document; a negative duration does not. */
  lemma ZeroDurationRejectedNegativeAccepted()
    ensures Validate(Document([Entry("x", 0, 5)])) == Rejected
    ensures Validate(Document([Entry("", 10, 5)])) == Rejected
    ensures Validate(Document([Entry("x", -10, 5)])) == Accepted
  {
  }

  /** `every` stops at the first rejected entry, so a null after it does not throw. */
  lemma NullAfterBadEntryRejects()
    ensures Validate(Document([Entry("x", 0, 5), Null])) == Rejected
    ensures Validate(Document([Null, Entry("x", 0, 5)])) == Threw
  {
  }
}
