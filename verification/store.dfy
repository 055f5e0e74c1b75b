/** The document store as one collection: a table of documents addressed by id. */
module Store {
  import opened Js

  type Id = string
  type Table = map<Id, Doc>

  /** The id the store generates after `n` ids: longer than any of the earlier ones. */
  function FreshFrom(n: nat): (id: Id)
    ensures |id| == n + 1
  {
    seq(n + 1, _ => 'x')
  }

  /** `snap` lists every document of `docs` once, with its data, in some order. */
  ghost predicate IsSnapshot(snap: seq<(Id, Doc)>, docs: Table)
  {
    && (forall i :: 0 <= i < |snap| ==> snap[i].0 in docs && docs[snap[i].0] == snap[i].1)
    && (forall i, j :: 0 <= i < j < |snap| ==> snap[i].0 != snap[j].0)
    && (forall k :: k in docs ==> exists i :: 0 <= i < |snap| && snap[i].0 == k)
  }

  /** A field name the store refuses to write: the empty name, or one that begins
      and ends with two underscores, such as `__proto__`. */
  predicate ReservedName(f: FieldName)
  {
    || f == ""
    || (|f| >= 4 && f[0] == '_' && f[1] == '_' && f[|f| - 2] == '_' && f[|f| - 1] == '_')
  }

  /** What the store accepts: no undefined property and no reserved field name. */
  predicate Storable(d: Doc)
  {
    Defined(d) && forall f :: f in d ==> !ReservedName(f)
  }

  class Collection {
    var docs: Table
    /** Bound on the length of every id in use; ids are generated above it. */
    var issued: nat

    ghost predicate Valid()
      reads this
    {
      forall k :: k in docs ==> |k| <= issued
    }

    constructor ()
      ensures Valid() && docs == map[]
    {
      docs := map[];
      issued := 0;
    }

    /** `doc(collection(db, name))`: a reference to a document id nobody uses yet. */
    function NewDocRef(): (id: Id)
      reads this
      requires Valid()
      ensures id !in docs && id != ""
    {
      FreshFrom(issued)
    }

    /** `getDocs(collection(db, name))`. */
    method GetDocs() returns (snap: seq<(Id, Doc)>)
      ensures IsSnapshot(snap, docs)
    {
      snap := [];
      var rest := docs.Keys;
      while rest != {}
        invariant rest <= docs.Keys
        invariant forall i :: 0 <= i < |snap| ==> snap[i].0 in docs && snap[i].0 !in rest && docs[snap[i].0] == snap[i].1
        invariant forall i, j :: 0 <= i < j < |snap| ==> snap[i].0 != snap[j].0
        invariant forall k :: k in docs && k !in rest ==> exists i :: 0 <= i < |snap| && snap[i].0 == k
        decreases rest
      {
        var k :| k in rest;
        ghost var before := snap;
        snap := snap + [(k, docs[k])];
        assert forall i :: 0 <= i < |before| ==> snap[i] == before[i];
        assert snap[|before|].0 == k;
        rest := rest - {k};
      }
    }

    /** `setDoc(ref, d)` without merge: a full overwrite. The store refuses a
        document with an undefined property or a reserved field name, and then
        writes nothing. */
    method SetDoc(id: Id, d: Doc) returns (ok: bool)
      requires Valid()
      modifies this
      ensures Valid()
      ensures ok == Storable(d)
      ensures docs == if ok then old(docs)[id := d] else old(docs)
    {
      ok := forall f | f in d :: d[f] != Undefined && !ReservedName(f);
      if ok {
        docs := docs[id := d];
        if issued < |id| {
          issued := |id|;
        }
      }
    }

    /** `deleteDoc(ref)`. */
    method DeleteDoc(id: Id)
      requires Valid()
      modifies this
      ensures Valid()
      ensures docs == old(docs) - {id}
    {
      docs := docs - {id};
    }
  }
}
