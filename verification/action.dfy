/** The route's `action`: one submitted form plus the request's HTTP method
    becomes at most one request to the store's admin REST client, or a literal
    rejection. The client is represented only by the request value it would be
    handed; what it does with it lies outside this model. */
module Action {
  import opened Optional
  import opened FormEntries

  /** The HTTP methods the action's switch tells apart. */
  datatype Method = DELETE | PUT | POST | Other(name: string)

  /** Content type tag of a POST; the action only ever sends JSON. */
  datatype DataType = Json

  /** What one call of the action produces. */
  datatype Outcome =
    | Delete(path: string)
    | Put(path: string, data: map<string, string>)
    | Post(path: string, body: map<string, Form>, dataType: DataType)
    | Rejected(message: string)
  {
    /** True when a request reaches the remote client. */
    predicate IsRequest() {
      !Rejected?
    }
  }

  const ProductsPath: string := "products"
  const PathPrefix: string := "products/"
  const FixedTitle: string := "Latest Product =====>"
  const WrongMethod: string := "Request wrong method"

  /** The switch on `request.method` compares whole strings, case included. */
  function ParseMethod(s: string): (m: Method)
    ensures s == "DELETE" <==> m == DELETE
    ensures s == "PUT" <==> m == PUT
    ensures s == "POST" <==> m == POST
    ensures m.Other? <==> s != "DELETE" && s != "PUT" && s != "POST"
    ensures m.Other? ==> m.name == s
  {
    if s == "DELETE" then DELETE
    else if s == "PUT" then PUT
    else if s == "POST" then POST
    else Other(s)
  }

  /** The method text a `Method` stands for. */
  function MethodName(m: Method): string {
    match m
    case DELETE => "DELETE"
    case PUT => "PUT"
    case POST => "POST"
    case Other(name) => name
  }

  /** Parsing is the inverse of naming, for every method that names itself
      consistently (an `Other` that does not spell one of the three). */
  lemma ParseMethodName(m: Method)
    requires m.Other? ==> ParseMethod(m.name).Other?
    ensures ParseMethod(MethodName(m)) == m
  {
  }

  /** The path addressing one product: `products/${product_id}`. */
  function ProductPath(productId: string): (p: string)
    ensures |p| == |PathPrefix| + |productId|
    ensures p[..|PathPrefix|] == PathPrefix && p[|PathPrefix|..] == productId
  {
    PathPrefix + productId
  }

  /** The product id a path addresses, if it addresses one. */
  function PathProductId(path: string): (id: Option<string>)
  {
    if |PathPrefix| <= |path| && path[..|PathPrefix|] == PathPrefix
    then Some(path[|PathPrefix|..])
    else None
  }

  /** The route's action without its awaits and its catch: the request, if
      any, that the switch on the method hands to the admin client. */
  function Dispatch(verb: string, form: Form): (r: Outcome)
    ensures r.Delete? <==> verb == "DELETE"
    ensures r.Put? <==> verb == "PUT"
    ensures r.Post? <==> verb == "POST"
    ensures r.Rejected? <==> ParseMethod(verb).Other?
    ensures (r.Delete? || r.Put?) ==> PathProductId(r.path) == Some(FieldText(form, "product_id"))
    ensures r.Put? ==> r.data == map["title" := FixedTitle]
    ensures r.Post? ==> r.path == ProductsPath && PathProductId(r.path) == None
    ensures r.Post? ==> r.dataType == Json && r.body.Keys == {"product"} && r.body["product"] == form
    ensures r.Rejected? ==> r.message == WrongMethod
  {
    var productId := FieldText(form, "product_id");
    var body := map["product" := form];
    match ParseMethod(verb)
    case DELETE => Delete(ProductPath(productId))
    case PUT => Put(ProductPath(productId), map["title" := FixedTitle])
    case POST => Post(ProductsPath, body, Json)
    case Other(_) => Rejected(WrongMethod)
  }

  /** Reading the id back out of a product path gives the id put in. */
  lemma PathRoundTrip(productId: string)
    ensures PathProductId(ProductPath(productId)) == Some(productId)
  {
  }

  /** A PUT never looks at the form beyond its product id: two forms with the
      same product id produce the same request. */
  lemma PutIgnoresForm(f1: Form, f2: Form)
    requires FieldText(f1, "product_id") == FieldText(f2, "product_id")
    ensures Dispatch("PUT", f1) == Dispatch("PUT", f2)
  {
  }

  /** A DELETE depends on the form only through its product id, and distinct
      ids give distinct paths. */
  lemma DeleteDeterminedById(f1: Form, f2: Form)
    ensures Dispatch("DELETE", f1) == Dispatch("DELETE", f2)
        <==> FieldText(f1, "product_id") == FieldText(f2, "product_id")
  {
    var p1 := ProductPath(FieldText(f1, "product_id"));
    var p2 := ProductPath(FieldText(f2, "product_id"));
    if p1 == p2 {
      PathRoundTrip(FieldText(f1, "product_id"));
      PathRoundTrip(FieldText(f2, "product_id"));
    }
  }

  /** A POST forwards the form unchanged: distinct forms give distinct bodies,
      and the form can be read back from the request. */
  lemma PostCarriesForm(f1: Form, f2: Form)
    ensures Dispatch("POST", f1) == Dispatch("POST", f2) <==> f1 == f2
  {
    if Dispatch("POST", f1) == Dispatch("POST", f2) {
      assert Dispatch("POST", f1).body["product"] == f1;
    }
  }

  /** Exactly the three recognised methods reach the remote client. */
  lemma RequestIffKnownMethod(verb: string, form: Form)
    ensures Dispatch(verb, form).IsRequest() <==> verb in {"DELETE", "PUT", "POST"}
  {
  }
}
