/** The framework's `ApplicationRequest`: a wrapper around the parameters
    of one request, the query string's and the form's, kept apart. */
module Requests {
  import opened Arrays

  datatype Request = Request(queryParams: AssocArray<string>, formParams: AssocArray<string>)

  /** The query parameter that names the module a request is for. */
  const ModuleKey: Key := StrKey("module")

  /** `initialize($query, $form)`: a request carrying the given query and
      form parameters. */
  function Initialize(query: AssocArray<string>, form: AssocArray<string>): (r: Request)
    ensures QueryAll(r) == query
    ensures forall k :: Query(r, k) == Lookup(query, k) && Form(r, k) == Lookup(form, k)
  {
    Request(query, form)
  }

  /** `query($key)`: the query parameter `key`, `None` when the request has none. */
  function Query(r: Request, key: Key): (v: Option<string>)
    ensures v.Some? <==> key in Keys(r.queryParams)
    ensures v.Some? ==> (key, v.value) in r.queryParams
  {
    LookupFound(r.queryParams, key);
    Lookup(r.queryParams, key)
  }

  /** `queryAll()`: every query parameter, in the order given, the same
      ones `query` answers with key by key. */
  function QueryAll(r: Request): (all: AssocArray<string>)
    ensures forall k :: k in Keys(all) <==> Query(r, k).Some?
    ensures forall i :: 0 <= i < |all| ==> Query(r, all[i].0) == Some(all[i].1)
  {
    LookupEveryEntry(r.queryParams);
    r.queryParams
  }

  /** `form($key)`: the form parameter `key`, `None` when the request has none. */
  function Form(r: Request, key: Key): (v: Option<string>)
    ensures v.Some? <==> key in Keys(r.formParams)
    ensures v.Some? ==> (key, v.value) in r.formParams
  {
    LookupFound(r.formParams, key);
    Lookup(r.formParams, key)
  }

  /** `module($default)`: the module the request names in its `module`
      query parameter, or `default` when it names none. */
  function Module(r: Request, default: string): (name: string)
    ensures ModuleKey !in Keys(QueryAll(r)) ==> name == default
    ensures ModuleKey in Keys(QueryAll(r)) ==> Query(r, ModuleKey) == Some(name)
  {
    Query(r, ModuleKey).GetOr(default)
  }

  /** The query parameters do not depend on the form parameters: whatever
      form is posted, `query` and `queryAll` answer the same. */
  lemma QueryIgnoresForm(query: AssocArray<string>, f1: AssocArray<string>, f2: AssocArray<string>, key: Key)
    ensures QueryAll(Initialize(query, f1)) == QueryAll(Initialize(query, f2))
    ensures Query(Initialize(query, f1), key) == Query(Initialize(query, f2), key)
  {
  }

  /** Every query parameter is among `queryAll()`, and nothing else is. */
  lemma QueryAllHolds(r: Request, key: Key, v: string)
    ensures Query(r, key) == Some(v) <==> (key, v) in QueryAll(r)
  {
  }

  /** `module($default)` gives back `default` exactly when the request names
      no module or names that very module. */
  lemma ModuleIsDefault(r: Request, default: string)
    ensures Module(r, default) == default <==>
            ModuleKey !in Keys(QueryAll(r)) || Query(r, ModuleKey) == Some(default)
  {
  }

  /** The module a request names does not depend on the default. */
  lemma ModuleNamed(r: Request, d1: string, d2: string)
    requires ModuleKey in Keys(QueryAll(r))
    ensures Module(r, d1) == Module(r, d2)
  {
  }

  // ---------------------------------------------------------------------
  // The assertions of the request tests
  // ---------------------------------------------------------------------

  /** The request of the tests. */
  function TestRequest(): Request
  {
    Initialize([(StrKey("testGet"), "g1"), (StrKey("testGet1"), "g2")],
               [(StrKey("testPost"), "p3"), (StrKey("testPost1"), "p4")])
  }

  /** `testQuery` and `testForm`. */
  lemma QueryFormExamples()
    ensures Query(TestRequest(), StrKey("testGet")) == Some("g1")
    ensures QueryAll(TestRequest()) == [(StrKey("testGet"), "g1"), (StrKey("testGet1"), "g2")]
    ensures Form(TestRequest(), StrKey("testPost")) == Some("p3")
  {
  }

  /** `testModule`: the request names no module, so the default is used. */
  lemma ModuleExample()
    ensures Module(TestRequest(), "testModule") == "testModule"
  {
    assert StrKey("testGet") != ModuleKey && StrKey("testGet1") != ModuleKey;
  }
}
