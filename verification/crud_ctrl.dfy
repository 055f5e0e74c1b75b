/** The request handlers both resource controllers run (`all`, `upsert`, `delete`),
    written step by step over the store and proved to follow the protocol in OwnerCrud.
    `caller` is `req.usuario?.email`, the email the auth gate attached. */
module CrudCtrl {
  import opened Js
  import opened Store
  import opened OwnerCrud

  /** `all`: the caller's documents, each with its id; `ids` names the document behind
      each entry. Every owned document appears exactly once and nothing else does. */
  method All(db: Collection, caller: Option<string>) returns (reply: Reply, ghost ids: seq<Id>)
    ensures reply.Listed? && ExactListing(reply.items, ids, db.docs, caller)
  {
    var snap := db.GetDocs();
    reply := Listed(ListEntries(snap, caller));
    ids := OwnedIds(snap, caller);
    ListingIsExact(snap, db.docs, caller);
  }

  /** The `for` loop over the required fields: the first one whose value is falsy. */
  method CheckRequired(body: Doc, required: seq<FieldName>) returns (missing: Option<FieldName>)
    ensures missing == FirstMissing(body, required)
  {
    var i := 0;
    while i < |required|
      invariant 0 <= i <= |required|
      invariant FirstMissing(body, required) == FirstMissing(body, required[i..])
    {
      var campo := required[i];
      if !Truthy(Field(body, campo)) {
        return Some(campo);
      }
      assert required[i..][1..] == required[i + 1..];
      i := i + 1;
    }
    return None;
  }

  /** `upsert`: validate the body, then update the document it names or create one. */
  method Upsert(cfg: Config, db: Collection, body: Doc, caller: Option<string>,
                parse: string -> Option<real>) returns (reply: Reply)
    requires db.Valid() && Defined(body)
    modifies db
    ensures db.Valid()
    ensures (reply, db.docs) == UpsertSpec(cfg, old(db.docs), body, caller, parse, old(db.NewDocRef()))
  {
    var missing := CheckRequired(body, cfg.required);
    if missing.Some? {
      return BadRequest(RequiredMsg(missing.value));
    }

    var data := body;
    if cfg.parsesPrecio {
      var precio := ParseFloat(parse, Field(data, "precio"));
      if precio.None? {
        return BadRequest(PrecioMsg);
      }
      data := data["precio" := Num(precio.value)];
    }
    assert Coerced(cfg, body, parse) == Some(data);

    if Truthy(Field(data, "id")) {
      reply := Update(db, data, caller);
    } else {
      reply := Create(db, data, caller);
    }
  }

  /** The update branch of `upsert`: existence check, owner check, removal of
      `owner`, then a full overwrite with the payload minus `owner` and `id`. */
  method Update(db: Collection, data: Doc, caller: Option<string>) returns (reply: Reply)
    requires db.Valid() && Defined(data) && Truthy(Field(data, "id"))
    modifies db
    ensures db.Valid()
    ensures (reply, db.docs) == UpdateSpec(old(db.docs), data, caller)
  {
    if !data["id"].Str? {
      // a document path cannot be built from a non-string id
      return StoreError;
    }
    var id := data["id"].s;
    if id !in db.docs {
      return NotFound;
    }
    if !OwnerMatches(db.docs[id], caller) {
      return Forbidden;
    }
    if "hasOwnProperty" in data {
      // the owner-removal step calls the body's own `hasOwnProperty`, which is no function
      return StoreError;
    }
    var payload := data;
    if "owner" in payload {
      payload := payload - {"owner"};
    }
    var dataWithoutId := payload - {"id"};
    assert dataWithoutId == data - {"owner", "id"};
    var ok := db.SetDoc(id, dataWithoutId);
    if !ok {
      return StoreError;
    }
    reply := Saved(dataWithoutId["id" := Str(id)]);
  }

  /** The create branch of `upsert`: stamp the owner and store under a new id. */
  method Create(db: Collection, data: Doc, caller: Option<string>) returns (reply: Reply)
    requires db.Valid()
    modifies db
    ensures db.Valid()
    ensures (reply, db.docs) == CreateSpec(old(db.docs), data, caller, old(db.NewDocRef()))
  {
    var stamped := data["owner" := OrUndefined(caller)];
    var ref := db.NewDocRef();
    var ok := db.SetDoc(ref, stamped);
    if !ok {
      return StoreError;
    }
    reply := Created(Entry(ref, stamped));
  }

  /** `delete`: remove the document named by the route's id if the caller owns it. */
  method Delete(db: Collection, id: Id, caller: Option<string>) returns (reply: Reply)
    requires db.Valid()
    modifies db
    ensures db.Valid()
    ensures (reply, db.docs) == DeleteSpec(old(db.docs), id, caller)
  {
    if id !in db.docs {
      return NotFound;
    }
    if !OwnerMatches(db.docs[id], caller) {
      return Forbidden;
    }
    db.DeleteDoc(id);
    reply := Removed;
  }
}
