/** The owner-scoped CRUD protocol shared by the employee and product controllers,
    as functions from the table before a request to the reply and the table after it. */
module OwnerCrud {
  import opened Js
  import opened Store

  /** What distinguishes the two controllers: the required fields in the order they
      are checked, and whether `precio` is parsed into a number. */
  datatype Config = Config(required: seq<FieldName>, parsesPrecio: bool)

  /** The reply a controller sends; each request ends in exactly one of these. */
  datatype Reply =
    | Listed(items: seq<Doc>)
    | Saved(doc: Doc)
    | Created(doc: Doc)
    | Removed
    | BadRequest(error: string)
    | NotFound
    | Forbidden
    | StoreError
  {
    function Status(): int
    {
      match this
      case Listed(_) => 200
      case Saved(_) => 200
      case Created(_) => 201
      case Removed => 200
      case BadRequest(_) => 400
      case NotFound => 404
      case Forbidden => 403
      case StoreError => 500
    }
  }

  function RequiredMsg(f: FieldName): string
  {
    "El campo " + f + " es requerido"
  }

  const PrecioMsg: string := "El precio debe ser un número válido"

  /** `d.owner === req.usuario?.email`. */
  predicate OwnerMatches(d: Doc, caller: Option<string>)
  {
    Field(d, "owner") == OrUndefined(caller)
  }

  /** `{ id, ...data }`: the properties of `data` win over the id, `id` included. */
  function Entry(id: Id, data: Doc): Doc
  {
    map["id" := Str(id)] + data
  }

  /** The keys of the documents the caller owns. */
  ghost function Visible(docs: Table, caller: Option<string>): set<Id>
  {
    set k | k in docs && OwnerMatches(docs[k], caller)
  }

  /** `items` is the caller's listing of `docs`: entry i is the document `ids[i]` with
      its id, no document appears twice, and a stored document appears iff the caller
      owns it. */
  ghost predicate ExactListing(items: seq<Doc>, ids: seq<Id>, docs: Table, caller: Option<string>)
  {
    && |items| == |ids|
    && (forall i :: 0 <= i < |ids| ==> ids[i] in docs && items[i] == Entry(ids[i], docs[ids[i]]))
    && (forall i, j :: 0 <= i < j < |ids| ==> ids[i] != ids[j])
    && (forall k :: k in docs ==> (k in ids <==> OwnerMatches(docs[k], caller)))
  }

  // ---------------------------------------------------------------- listing

  /** `snap.map(d => ({ id: d.id, ...d.data() })).filter(e => e.owner === caller)`. */
  function ListEntries(snap: seq<(Id, Doc)>, caller: Option<string>): seq<Doc>
  {
    if snap == [] then []
    else
      var e := Entry(snap[0].0, snap[0].1);
      (if OwnerMatches(e, caller) then [e] else []) + ListEntries(snap[1..], caller)
  }

  /** The pairs of `snap` whose documents the caller owns, in snapshot order. */
  ghost function Owned(snap: seq<(Id, Doc)>, caller: Option<string>): seq<(Id, Doc)>
  {
    if snap == [] then []
    else (if OwnerMatches(snap[0].1, caller) then [snap[0]] else []) + Owned(snap[1..], caller)
  }

  lemma EntryOwner(id: Id, data: Doc, caller: Option<string>)
    ensures OwnerMatches(Entry(id, data), caller) == OwnerMatches(data, caller)
  {
    assert Field(Entry(id, data), "owner") == Field(data, "owner");
  }

  lemma {:induction false} ListEntriesOfOwned(snap: seq<(Id, Doc)>, caller: Option<string>)
    ensures var o := Owned(snap, caller);
      |ListEntries(snap, caller)| == |o| &&
      forall i :: 0 <= i < |o| ==> ListEntries(snap, caller)[i] == Entry(o[i].0, o[i].1)
    ensures forall p :: p in Owned(snap, caller) <==> p in snap && OwnerMatches(p.1, caller)
  {
    if snap != [] {
      ListEntriesOfOwned(snap[1..], caller);
      EntryOwner(snap[0].0, snap[0].1, caller);
      assert snap == [snap[0]] + snap[1..];
    }
  }

  lemma {:induction false} OwnedDistinct(snap: seq<(Id, Doc)>, caller: Option<string>)
    requires forall i, j :: 0 <= i < j < |snap| ==> snap[i].0 != snap[j].0
    ensures var o := Owned(snap, caller);
      forall i, j :: 0 <= i < j < |o| ==> o[i].0 != o[j].0
  {
    if snap != [] {
      OwnedDistinct(snap[1..], caller);
      ListEntriesOfOwned(snap[1..], caller);
      var rest := Owned(snap[1..], caller);
      forall j | 0 <= j < |rest|
        ensures rest[j].0 != snap[0].0
      {
        assert rest[j] in snap[1..];
      }
    }
  }

  /** Listing a snapshot of `docs` yields, once each and with its id, exactly the
      documents whose owner is the caller. */
  lemma ListingExact(snap: seq<(Id, Doc)>, docs: Table, caller: Option<string>)
    requires IsSnapshot(snap, docs)
    ensures var o := Owned(snap, caller);
      && |ListEntries(snap, caller)| == |o|
      && (forall i :: 0 <= i < |o| ==> o[i].0 in docs && ListEntries(snap, caller)[i] == Entry(o[i].0, docs[o[i].0]))
      && (forall i, j :: 0 <= i < j < |o| ==> o[i].0 != o[j].0)
      && (forall k :: k in docs ==> (OwnerMatches(docs[k], caller) <==> exists i :: 0 <= i < |o| && o[i].0 == k))
  {
    var o := Owned(snap, caller);
    ListEntriesOfOwned(snap, caller);
    OwnedDistinct(snap, caller);
    forall i | 0 <= i < |o|
      ensures o[i].0 in docs && docs[o[i].0] == o[i].1
    {
      assert o[i] in snap;
    }
    forall k | k in docs
      ensures OwnerMatches(docs[k], caller) <==> exists i :: 0 <= i < |o| && o[i].0 == k
    {
      if OwnerMatches(docs[k], caller) {
        var j :| 0 <= j < |snap| && snap[j].0 == k;
        assert snap[j] in o;
      }
    }
  }

  /** The ids of the caller's documents, in snapshot order. */
  ghost function OwnedIds(snap: seq<(Id, Doc)>, caller: Option<string>): seq<Id>
  {
    var o := Owned(snap, caller);
    seq(|o|, i requires 0 <= i < |o| => o[i].0)
  }

  /** The listing of a snapshot is the caller's exact listing of the table. */
  lemma ListingIsExact(snap: seq<(Id, Doc)>, docs: Table, caller: Option<string>)
    requires IsSnapshot(snap, docs)
    ensures ExactListing(ListEntries(snap, caller), OwnedIds(snap, caller), docs, caller)
  {
    ListingExact(snap, docs, caller);
    var o := Owned(snap, caller);
    var ids := OwnedIds(snap, caller);
    forall k | k in docs
      ensures k in ids <==> OwnerMatches(docs[k], caller)
    {
      if k in ids {
        var i :| 0 <= i < |ids| && ids[i] == k;
        assert o[i].0 == k;
      }
      if OwnerMatches(docs[k], caller) {
        var i :| 0 <= i < |o| && o[i].0 == k;
        assert ids[i] == k;
      }
    }
  }

  // ---------------------------------------------------------------- upsert

  /** The first required field whose value is falsy, in checking order. */
  function FirstMissing(body: Doc, required: seq<FieldName>): Option<FieldName>
  {
    if required == [] then None
    else if !Truthy(Field(body, required[0])) then Some(required[0])
    else FirstMissing(body, required[1..])
  }

  predicate AllPresent(body: Doc, fields: seq<FieldName>)
  {
    forall i :: 0 <= i < |fields| ==> Truthy(Field(body, fields[i]))
  }

  /** `parseFloat(v)`, which reads `String(v)`; `None` is NaN. How a string parses
      is the parameter `parse`; a number reads back as itself; `true`, `false`,
      `null` and `undefined` spell no number. */
  function ParseFloat(parse: string -> Option<real>, v: Value): Option<real>
  {
    match v
    case Str(s) => parse(s)
    case Num(n) => Some(n)
    case _ => None
  }

  /** The payload after the price step: products get `precio` replaced by the parsed
      number; `None` is the "not a number" rejection. */
  function Coerced(cfg: Config, body: Doc, parse: string -> Option<real>): Option<Doc>
  {
    if !cfg.parsesPrecio then Some(body)
    else match ParseFloat(parse, Field(body, "precio"))
      case None => None
      case Some(x) => Some(body["precio" := Num(x)])
  }

  /** One `upsert` request: the reply and the table afterwards. `newId` is the id the
      store hands out if the request creates a document. */
  function UpsertSpec(cfg: Config, docs: Table, body: Doc, caller: Option<string>,
                      parse: string -> Option<real>, newId: Id): (Reply, Table)
  {
    match FirstMissing(body, cfg.required)
    case Some(f) => (BadRequest(RequiredMsg(f)), docs)
    case None =>
      match Coerced(cfg, body, parse)
      case None => (BadRequest(PrecioMsg), docs)
      case Some(data) =>
        if Truthy(Field(data, "id")) then UpdateSpec(docs, data, caller)
        else CreateSpec(docs, data, caller, newId)
  }

  /** The update path, for a validated payload whose `id` is truthy. */
  function UpdateSpec(docs: Table, data: Doc, caller: Option<string>): (Reply, Table)
    requires Truthy(Field(data, "id"))
  {
    match data["id"]
    case Str(id) =>
      if id !in docs then (NotFound, docs)
      else if !OwnerMatches(docs[id], caller) then (Forbidden, docs)
      // `hasOwnProperty('owner')` calls the body's own property, a non-function: it throws
      else if "hasOwnProperty" in data then (StoreError, docs)
      else
        var stored := data - {"owner", "id"};
        if !Storable(stored) then (StoreError, docs)
        else (Saved(stored["id" := Str(id)]), docs[id := stored])
    case _ => (StoreError, docs)
  }

  /** The create path, for a validated payload whose `id` is falsy or absent. */
  function CreateSpec(docs: Table, data: Doc, caller: Option<string>, newId: Id): (Reply, Table)
  {
    var stamped := data["owner" := OrUndefined(caller)];
    if !Storable(stamped) then (StoreError, docs)
    else (Created(Entry(newId, stamped)), docs[newId := stamped])
  }

  /** The body passes validation and, for products, the price parses. */
  predicate Accepted(cfg: Config, body: Doc, parse: string -> Option<real>)
  {
    FirstMissing(body, cfg.required).None? && Coerced(cfg, body, parse).Some?
  }

  lemma {:induction false} FirstMissingIsFirst(body: Doc, fields: seq<FieldName>)
    ensures FirstMissing(body, fields).None? <==> AllPresent(body, fields)
    ensures forall i :: 0 <= i < |fields| && AllPresent(body, fields[..i]) && !Truthy(Field(body, fields[i]))
              ==> FirstMissing(body, fields) == Some(fields[i])
    ensures FirstMissing(body, fields).Some? ==>
              exists i :: 0 <= i < |fields| && fields[i] == FirstMissing(body, fields).value
                && AllPresent(body, fields[..i]) && !Truthy(Field(body, fields[i]))
  {
    if fields != [] {
      FirstMissingIsFirst(body, fields[1..]);
      var tail := fields[1..];
      forall i | 1 <= i < |fields| && AllPresent(body, fields[..i]) && !Truthy(Field(body, fields[i]))
        ensures FirstMissing(body, fields) == Some(fields[i])
      {
        assert Truthy(Field(body, fields[..i][0]));
        assert tail[..i - 1] == fields[1..i];
        var pre := tail[..i - 1];
        assert AllPresent(body, pre) by {
          forall j | 0 <= j < |pre| ensures Truthy(Field(body, pre[j])) {
            assert pre[j] == fields[..i][j + 1];
          }
        }
        assert tail[i - 1] == fields[i];
      }
      if FirstMissing(body, fields).Some? && Truthy(Field(body, fields[0])) {
        var i :| 0 <= i < |tail| && tail[i] == FirstMissing(body, tail).value
                 && AllPresent(body, tail[..i]) && !Truthy(Field(body, tail[i]));
        assert fields[i + 1] == tail[i];
        var pre := fields[..i + 1];
        assert AllPresent(body, pre) by {
          forall j | 0 <= j < |pre| ensures Truthy(Field(body, pre[j])) {
            if j > 0 { assert pre[j] == tail[..i][j - 1]; }
          }
        }
      }
      if AllPresent(body, fields) {
        forall j | 0 <= j < |tail| ensures Truthy(Field(body, tail[j])) {
          assert tail[j] == fields[j + 1];
        }
      }
      if Truthy(Field(body, fields[0])) && AllPresent(body, tail) {
        forall j | 0 <= j < |fields| ensures Truthy(Field(body, fields[j])) {
          if j > 0 { assert fields[j] == tail[j - 1]; }
        }
      }
    }
  }

  /** A falsy required field is reported by name, the first in checking order, and
      nothing is written. */
  lemma MissingFieldRejected(cfg: Config, docs: Table, body: Doc, caller: Option<string>,
                             parse: string -> Option<real>, newId: Id, i: nat)
    requires i < |cfg.required| && AllPresent(body, cfg.required[..i])
    requires !Truthy(Field(body, cfg.required[i]))
    ensures UpsertSpec(cfg, docs, body, caller, parse, newId) == (BadRequest(RequiredMsg(cfg.required[i])), docs)
  {
    FirstMissingIsFirst(body, cfg.required);
  }

  /** Any reply of status 400 or more leaves the table as it was; every reply has one
      of the six statuses. */
  lemma UpsertErrorsWriteNothing(cfg: Config, docs: Table, body: Doc, caller: Option<string>,
                                 parse: string -> Option<real>, newId: Id)
    ensures var (r, after) := UpsertSpec(cfg, docs, body, caller, parse, newId);
      && r.Status() in {200, 201, 400, 403, 404, 500}
      && (r.Status() >= 400 ==> after == docs)
      && (r.Saved? || r.Created? || r.BadRequest? || r.NotFound? || r.Forbidden? || r.StoreError?)
  {
  }

  /** An update naming an id the table does not hold is answered 404 with no write. */
  lemma UnknownIdNotFound(cfg: Config, docs: Table, body: Doc, caller: Option<string>,
                          parse: string -> Option<real>, newId: Id, id: Id)
    requires Accepted(cfg, body, parse)
    requires Field(body, "id") == Str(id) && id != "" && id !in docs
    ensures UpsertSpec(cfg, docs, body, caller, parse, newId) == (NotFound, docs)
  {
    assert Field(Coerced(cfg, body, parse).value, "id") == Str(id);
  }

  /** An update of somebody else's document is answered 403 with no write. */
  lemma NonOwnerUpdateForbidden(cfg: Config, docs: Table, body: Doc, caller: Option<string>,
                                parse: string -> Option<real>, newId: Id, id: Id)
    requires Accepted(cfg, body, parse)
    requires Field(body, "id") == Str(id) && id != "" && id in docs
    requires !OwnerMatches(docs[id], caller)
    ensures UpsertSpec(cfg, docs, body, caller, parse, newId) == (Forbidden, docs)
  {
    assert Field(Coerced(cfg, body, parse).value, "id") == Str(id);
  }

  /** An accepted update by the owner overwrites the whole document with the payload
      minus `id` and `owner`: the stored document no longer has an owner, the reply
      is that document with its id, and no other key changes. */
  lemma UpdateOverwrites(cfg: Config, docs: Table, body: Doc, caller: Option<string>,
                         parse: string -> Option<real>, newId: Id, id: Id)
    requires Accepted(cfg, body, parse) && Storable(body) && "hasOwnProperty" !in body
    requires Field(body, "id") == Str(id) && id != "" && id in docs
    requires OwnerMatches(docs[id], caller)
    ensures var (r, after) := UpsertSpec(cfg, docs, body, caller, parse, newId);
      var data := Coerced(cfg, body, parse).value;
      && r.Saved? && r.Status() == 200
      && after.Keys == docs.Keys
      && after[id] == data - {"id", "owner"}
      && "owner" !in after[id] && "id" !in after[id]
      && (forall f :: f in data && f != "id" && f != "owner" ==> after[id][f] == data[f])
      && r.doc == after[id]["id" := Str(id)]
      && (forall k :: k in docs && k != id ==> after[k] == docs[k])
  {
    var data := Coerced(cfg, body, parse).value;
    assert Field(data, "id") == Str(id);
    CoercedStorable(cfg, body, parse);
    assert Storable(data - {"owner", "id"});
  }

  /** The price step keeps a storable body storable: `precio` is no reserved name. */
  lemma CoercedStorable(cfg: Config, body: Doc, parse: string -> Option<real>)
    requires Storable(body) && Coerced(cfg, body, parse).Some?
    ensures Storable(Coerced(cfg, body, parse).value)
  {
    assert !ReservedName("precio");
  }

  /** A body carrying its own `hasOwnProperty` property makes the owner-removal step
      throw once the existence and owner checks pass: 500 and no write. */
  lemma OwnPropertyNamedHasOwnPropertyFails(cfg: Config, docs: Table, body: Doc, caller: Option<string>,
                                            parse: string -> Option<real>, newId: Id, id: Id)
    requires Accepted(cfg, body, parse) && "hasOwnProperty" in body
    requires Field(body, "id") == Str(id) && id != "" && id in docs
    requires OwnerMatches(docs[id], caller)
    ensures UpsertSpec(cfg, docs, body, caller, parse, newId) == (StoreError, docs)
  {
    var data := Coerced(cfg, body, parse).value;
    assert Field(data, "id") == Str(id);
    assert "hasOwnProperty" in data;
  }

  /** A body with a field name the store refuses is never written, on either path:
      whatever the reply, it is no success and the table is unchanged. */
  lemma ReservedFieldNeverWritten(cfg: Config, docs: Table, body: Doc, caller: Option<string>,
                                  parse: string -> Option<real>, newId: Id, f: FieldName)
    requires f in body && ReservedName(f)
    ensures var (r, after) := UpsertSpec(cfg, docs, body, caller, parse, newId);
      !r.Saved? && !r.Created? && after == docs
  {
    assert !ReservedName("precio") && !ReservedName("owner") && !ReservedName("id");
    match Coerced(cfg, body, parse)
    case None =>
    case Some(data) =>
      assert f in data;
      assert f in data - {"owner", "id"};
      assert f in data["owner" := OrUndefined(caller)];
  }

  /** The create path: the body is stored under `newId` with the caller as owner. */
  lemma CreatePath(cfg: Config, docs: Table, body: Doc, email: string,
                   parse: string -> Option<real>, newId: Id)
    requires Accepted(cfg, body, parse) && Storable(body)
    requires !Truthy(Field(body, "id"))
    ensures var stamped := Coerced(cfg, body, parse).value["owner" := Str(email)];
      UpsertSpec(cfg, docs, body, Some(email), parse, newId) == (Created(Entry(newId, stamped)), docs[newId := stamped])
  {
    var data := Coerced(cfg, body, parse).value;
    assert Field(data, "id") == Field(body, "id");
    CoercedStorable(cfg, body, parse);
    assert !ReservedName("owner");
    assert Storable(data["owner" := Str(email)]);
  }

  /** An accepted create stamps the caller's email as owner, whatever owner the body
      carried, and stores the document under the fresh id: one key more, no other
      key changed, answered 201. */
  lemma CreateStampsOwner(cfg: Config, docs: Table, body: Doc, email: string,
                          parse: string -> Option<real>, newId: Id)
    requires Accepted(cfg, body, parse) && Storable(body)
    requires !Truthy(Field(body, "id"))
    requires newId !in docs
    ensures var (r, after) := UpsertSpec(cfg, docs, body, Some(email), parse, newId);
      && r.Created? && r.Status() == 201
      && after.Keys == docs.Keys + {newId}
      && |after| == |docs| + 1
      && after[newId] == Coerced(cfg, body, parse).value["owner" := Str(email)]
      && Field(r.doc, "owner") == Str(email)
      && OwnerMatches(after[newId], Some(email))
      && (forall k :: k in docs ==> after[k] == docs[k])
  {
    CreatePath(cfg, docs, body, email, parse, newId);
    var stamped := Coerced(cfg, body, parse).value["owner" := Str(email)];
    InsertFresh(docs, newId, stamped);
    assert Field(Entry(newId, stamped), "owner") == Str(email);
  }

  /** Storing under a fresh key adds that key and nothing else. */
  lemma InsertFresh(docs: Table, newId: Id, d: Doc)
    requires newId !in docs
    ensures var after := docs[newId := d];
      && after.Keys == docs.Keys + {newId} && |after| == |docs| + 1
      && (forall k :: k in docs ==> after[k] == docs[k])
  {
    assert docs[newId := d].Keys == docs.Keys + {newId};
  }

  /** The reply to a create carries the fresh id only when the body had no `id`
      property: a falsy `id` in the body overrides it. */
  lemma CreatedReplyId(cfg: Config, docs: Table, body: Doc, email: string,
                       parse: string -> Option<real>, newId: Id)
    requires Accepted(cfg, body, parse) && Storable(body)
    requires !Truthy(Field(body, "id"))
    ensures var (r, after) := UpsertSpec(cfg, docs, body, Some(email), parse, newId);
      && r.Created?
      && Field(r.doc, "id") == (if "id" in body then body["id"] else Str(newId))
      && Field(after[newId], "id") == Field(body, "id")
  {
    var data := Coerced(cfg, body, parse).value;
    assert Field(data, "id") == Field(body, "id");
    CoercedStorable(cfg, body, parse);
    assert !ReservedName("owner");
    assert Storable(data["owner" := Str(email)]);
  }

  /** A create by a caller whose token has no email would store an undefined owner,
      which the store refuses: 500 and no write. */
  lemma CreateWithoutEmailFails(cfg: Config, docs: Table, body: Doc,
                                parse: string -> Option<real>, newId: Id)
    requires Accepted(cfg, body, parse)
    requires !Truthy(Field(body, "id"))
    ensures UpsertSpec(cfg, docs, body, None, parse, newId) == (StoreError, docs)
  {
    var data := Coerced(cfg, body, parse).value;
    assert Field(data, "id") == Field(body, "id");
    assert !Defined(data["owner" := Undefined]) by {
      assert "owner" in data["owner" := Undefined];
    }
  }

  // ---------------------------------------------------------------- delete

  /** One `delete` request: the reply and the table afterwards. */
  function DeleteSpec(docs: Table, id: Id, caller: Option<string>): (Reply, Table)
  {
    if id !in docs then (NotFound, docs)
    else if !OwnerMatches(docs[id], caller) then (Forbidden, docs)
    else (Removed, docs - {id})
  }

  /** Unknown id: 404; somebody else's document: 403; both leave the table alone.
      Otherwise exactly that key goes and the reply is 200. */
  lemma DeleteOutcomes(docs: Table, id: Id, caller: Option<string>)
    ensures var (r, after) := DeleteSpec(docs, id, caller);
      && (id !in docs ==> r == NotFound && r.Status() == 404 && after == docs)
      && (id in docs && !OwnerMatches(docs[id], caller) ==> r == Forbidden && r.Status() == 403 && after == docs)
      && (id in docs && OwnerMatches(docs[id], caller) ==>
            r == Removed && r.Status() == 200 && after.Keys == docs.Keys - {id} && |after| == |docs| - 1
            && forall k :: k in after ==> after[k] == docs[k])
  {
  }

  // ---------------------------------------------------------------- consequences

  /** A document made by the caller is listed for the caller and for no other caller. */
  lemma CreatedVisibleOnlyToCreator(cfg: Config, docs: Table, body: Doc, email: string,
                                    parse: string -> Option<real>, newId: Id, other: Option<string>)
    requires Accepted(cfg, body, parse) && Storable(body)
    requires !Truthy(Field(body, "id"))
    requires newId !in docs
    ensures var after := UpsertSpec(cfg, docs, body, Some(email), parse, newId).1;
      && newId in Visible(after, Some(email))
      && (other != Some(email) ==> newId !in Visible(after, other))
  {
    CreateStampsOwner(cfg, docs, body, email, parse, newId);
    var after := UpsertSpec(cfg, docs, body, Some(email), parse, newId).1;
    if other != Some(email) {
      assert Field(after[newId], "owner") == Str(email);
      assert OrUndefined(other) != Str(email);
    }
  }

  /** Because an update leaves no owner behind, the updated document drops out of
      every listing of a caller with an email, and that caller's next update or
      delete of it is refused with 403. */
  lemma UpdateRevokesOwnership(cfg: Config, docs: Table, body: Doc, caller: Option<string>,
                               parse: string -> Option<real>, newId: Id, id: Id,
                               email: string, body2: Doc, newId2: Id)
    requires Accepted(cfg, body, parse) && Storable(body) && "hasOwnProperty" !in body
    requires Field(body, "id") == Str(id) && id != "" && id in docs
    requires OwnerMatches(docs[id], caller)
    requires Accepted(cfg, body2, parse) && Field(body2, "id") == Str(id)
    ensures var after := UpsertSpec(cfg, docs, body, caller, parse, newId).1;
      && id !in Visible(after, Some(email))
      && DeleteSpec(after, id, Some(email)).0 == Forbidden
      && UpsertSpec(cfg, after, body2, Some(email), parse, newId2).0 == Forbidden
  {
    UpdateOverwrites(cfg, docs, body, caller, parse, newId, id);
    var after := UpsertSpec(cfg, docs, body, caller, parse, newId).1;
    assert !OwnerMatches(after[id], Some(email));
    NonOwnerUpdateForbidden(cfg, after, body2, Some(email), parse, newId2, id);
  }
}
