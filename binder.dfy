/** Blob bindings of a request handler: each binding names a blob path (with `{name}`
    placeholders), an optional container and the property of the result that receives the
    blob's content. */
module Binding {
  import opened Results
  import opened Json
  import opened Http
  import opened Placeholders

  datatype Binding = Binding(path: string, container: Option<string>, property: string)

  /** What `getPropertyBinder` hands out: the path and container waiting for a property. */
  datatype PropertyBinder = PropertyBinder(path: string, container: Option<string>)

  /** The storage read for a path and container; `None` when the read throws. */
  type BlobReader = (string, Option<string>) -> Option<Value>

  predicate DistinctProperties(bindings: seq<Binding>) {
    forall i, j :: 0 <= i < j < |bindings| ==> bindings[i].property != bindings[j].property
  }

  function Properties(bindings: seq<Binding>): set<string> {
    set i | 0 <= i < |bindings| :: bindings[i].property
  }

  /** The value one binding receives: the blob at its expanded path, or `undefined` when the
      read throws. */
  function Fetch(b: Binding, req: HttpRequest, read: BlobReader): Value {
    match read(Substitute(b.path, req.body, req.query), b.container)
    case None => Undefined
    case Some(v) => v
  }

  /** No binding after the `i`-th fills the same property. */
  predicate LastFor(bindings: seq<Binding>, i: nat)
    requires i < |bindings|
  {
    forall j :: i < j < |bindings| ==> bindings[j].property != bindings[i].property
  }

  /** The object `getBindings` assembles: one entry per binding, keyed by its property, a later
      binding overwriting an earlier one with the same property. */
  function Assemble(bindings: seq<Binding>, req: HttpRequest, read: BlobReader): (r: map<string, Value>)
    ensures r.Keys == Properties(bindings)
    ensures forall i :: 0 <= i < |bindings| && LastFor(bindings, i) ==> r[bindings[i].property] == Fetch(bindings[i], req, read)
    decreases |bindings|
  {
    if bindings == [] then map[]
    else
      var init, last := bindings[..|bindings| - 1], bindings[|bindings| - 1];
      var rest := Assemble(init, req, read);
      PropertiesOfInit(bindings);
      LastForInit(bindings);
      rest[last.property := Fetch(last, req, read)]
  }

  lemma PropertiesOfInit(bindings: seq<Binding>)
    requires bindings != []
    ensures Properties(bindings) == Properties(bindings[..|bindings| - 1]) + {bindings[|bindings| - 1].property}
  {
    var init := bindings[..|bindings| - 1];
    assert forall i :: 0 <= i < |init| ==> init[i] == bindings[i];
  }

  lemma LastForInit(bindings: seq<Binding>)
    requires bindings != []
    ensures forall i :: 0 <= i < |bindings| - 1 && LastFor(bindings, i) ==> LastFor(bindings[..|bindings| - 1], i)
  {
    var init := bindings[..|bindings| - 1];
    forall i | 0 <= i < |init| && LastFor(bindings, i)
      ensures LastFor(init, i)
    {
      assert forall j :: i < j < |init| ==> init[j] == bindings[j];
    }
  }

  /** Assembling one more binding sets its property and keeps the rest. */
  lemma AssembleNext(bindings: seq<Binding>, i: nat, req: HttpRequest, read: BlobReader)
    requires i < |bindings|
    ensures Assemble(bindings[..i + 1], req, read)
         == Assemble(bindings[..i], req, read)[bindings[i].property := Fetch(bindings[i], req, read)]
  {
    assert bindings[..i + 1][..i] == bindings[..i];
  }

  /** With distinct properties, every binding's property holds that binding's blob. */
  lemma EveryBindingBound(bindings: seq<Binding>, req: HttpRequest, read: BlobReader, i: nat)
    requires DistinctProperties(bindings) && i < |bindings|
    ensures bindings[i].property in Assemble(bindings, req, read)
    ensures Assemble(bindings, req, read)[bindings[i].property] == Fetch(bindings[i], req, read)
  {
    assert LastFor(bindings, i);
  }

  class RequestBinder {
    var bindings: seq<Binding>

    /** No two bindings fill the same property. */
    ghost predicate Valid()
      reads this
    {
      DistinctProperties(bindings)
    }

    constructor ()
      ensures Valid() && bindings == []
    {
      bindings := [];
    }

    /** `getPropertyBinder`: refuses a path some binding already has. */
    method GetPropertyBinder(path: string, container: Option<string>) returns (r: Result<PropertyBinder, string>)
      ensures r.Failure? <==> exists i :: 0 <= i < |bindings| && bindings[i].path == path
      ensures r.Failure? ==> r.error == "Binding for " + path + " already exists"
      ensures r.Success? ==> r.value == PropertyBinder(path, container)
    {
      var i := 0;
      while i < |bindings|
        invariant i <= |bindings|
        invariant forall k :: 0 <= k < i ==> bindings[k].path != path
      {
        if bindings[i].path == path {
          return Failure("Binding for " + path + " already exists");
        }
        i := i + 1;
      }
      r := Success(PropertyBinder(path, container));
    }

    /** `to` on a property binder: refuses a property some binding already fills, otherwise
        appends exactly one binding. */
    method To(binder: PropertyBinder, property: string) returns (r: Outcome<string>)
      requires Valid()
      modifies this
      ensures Valid()
      ensures r.Fail? <==> property in Properties(old(bindings))
      ensures r.Fail? ==> r.error == "Binding to " + property + " already exists" && bindings == old(bindings)
      ensures r.Pass? ==> bindings == old(bindings) + [Binding(binder.path, binder.container, property)]
    {
      var i := 0;
      while i < |bindings|
        invariant i <= |bindings|
        invariant forall k :: 0 <= k < i ==> bindings[k].property != property
      {
        if bindings[i].property == property {
          return Fail("Binding to " + property + " already exists");
        }
        i := i + 1;
      }
      bindings := bindings + [Binding(binder.path, binder.container, property)];
      r := Pass;
    }

    /** `getBindings`: every binding in order, its path expanded against the request's body and
        query, its property set to what the read returns. */
    method GetBindings(req: HttpRequest, read: BlobReader) returns (r: map<string, Value>)
      ensures r == Assemble(bindings, req, read)
    {
      r := map[];
      for i := 0 to |bindings|
        invariant r == Assemble(bindings[..i], req, read)
      {
        var value := Read(bindings[i], req, read);
        AssembleNext(bindings, i, req, read);
        r := r[bindings[i].property := value];
      }
      assert bindings[..|bindings|] == bindings;
    }
  }

  /** One iteration of `getBindings`: expand the path, then read; a read that throws leaves
      the value `undefined`. */
  method Read(b: Binding, req: HttpRequest, read: BlobReader) returns (value: Value)
    ensures value == Fetch(b, req, read)
  {
    var path := Expand(b.path, req.body, req.query);
    value := match read(path, b.container) case None => Undefined case Some(v) => v;
  }

  /** Two property binders for the same path, taken before either is used, both succeed: the
      path check happens when a binder is handed out, so stored paths can repeat. */
  method SamePathTwice() returns (stored: seq<Binding>)
    ensures |stored| == 2 && stored[0].path == stored[1].path
    ensures stored[0].property != stored[1].property
  {
    var binder := new RequestBinder();
    var first := binder.GetPropertyBinder("{appId}.json", None);
    var second := binder.GetPropertyBinder("{appId}.json", None);
    var a := binder.To(first.value, "app");
    var b := binder.To(second.value, "copy");
    stored := binder.bindings;
  }
}
