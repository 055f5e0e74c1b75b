/** The product controller: the owner-scoped protocol over the `productos` collection,
    with the price parsed into a number before anything is read or written. */
module Productos {
  import opened Js
  import opened Store
  import opened OwnerCrud

  /** Checked in this order; the first falsy one is reported. */
  const Required: seq<FieldName> := ["nombre", "categoria", "precio", "moneda"]

  const Cfg: Config := Config(Required, true)

  /** A price that is not a number is refused with 400 before the id is looked at:
      the table is untouched whether or not the id exists. */
  lemma PrecioNotNumberRejected(docs: Table, body: Doc, caller: Option<string>,
                                parse: string -> Option<real>, newId: Id)
    requires FirstMissing(body, Required).None?
    requires ParseFloat(parse, Field(body, "precio")).None?
    ensures UpsertSpec(Cfg, docs, body, caller, parse, newId) == (BadRequest(PrecioMsg), docs)
  {
  }

  /** Whatever path it takes, a successful upsert stores and returns the parsed
      number as `precio`, never the input text. */
  lemma PrecioStoredAsNumber(docs: Table, body: Doc, caller: Option<string>,
                             parse: string -> Option<real>, newId: Id, x: real)
    requires FirstMissing(body, Required).None?
    requires ParseFloat(parse, Field(body, "precio")) == Some(x)
    ensures var (r, after) := UpsertSpec(Cfg, docs, body, caller, parse, newId);
      && ((r.Saved? || r.Created?) ==> Field(r.doc, "precio") == Num(x))
      && (forall k :: k in after && (k !in docs || after[k] != docs[k]) ==> Field(after[k], "precio") == Num(x))
  {
    var data := body["precio" := Num(x)];
    assert Coerced(Cfg, body, parse) == Some(data);
    if Truthy(Field(data, "id")) {
      UpdateKeepsPrecio(docs, data, caller, x);
    } else {
      CreateKeepsPrecio(docs, data, caller, newId, x);
    }
  }

  /** The update path stores and returns the payload's `precio` as it is. */
  lemma UpdateKeepsPrecio(docs: Table, data: Doc, caller: Option<string>, x: real)
    requires Truthy(Field(data, "id")) && Field(data, "precio") == Num(x)
    ensures var (r, after) := UpdateSpec(docs, data, caller);
      && (r.Saved? ==> Field(r.doc, "precio") == Num(x))
      && (forall k :: k in after && (k !in docs || after[k] != docs[k]) ==> Field(after[k], "precio") == Num(x))
  {
    var (r, after) := UpdateSpec(docs, data, caller);
    if r.Saved? {
      var id := data["id"].s;
      assert after == docs[id := data - {"owner", "id"}];
      assert Field(data - {"owner", "id"}, "precio") == Num(x);
    }
  }

  /** The create path stores and returns the payload's `precio` as it is. */
  lemma CreateKeepsPrecio(docs: Table, data: Doc, caller: Option<string>, newId: Id, x: real)
    requires Field(data, "precio") == Num(x)
    ensures var (r, after) := CreateSpec(docs, data, caller, newId);
      && (r.Created? ==> Field(r.doc, "precio") == Num(x))
      && (forall k :: k in after && (k !in docs || after[k] != docs[k]) ==> Field(after[k], "precio") == Num(x))
  {
    var stamped := data["owner" := OrUndefined(caller)];
    assert Field(stamped, "precio") == Num(x);
    assert Field(Entry(newId, stamped), "precio") == Num(x);
  }
}
