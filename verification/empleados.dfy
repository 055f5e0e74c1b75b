/** The employee controller: the owner-scoped protocol over the `empleados` collection. */
module Empleados {
  import opened Js
  import opened Store
  import opened OwnerCrud

  /** Checked in this order; the first falsy one is reported. */
  const Required: seq<FieldName> := ["nombre", "email", "rol", "dni", "antiguedad", "pais"]

  const Cfg: Config := Config(Required, false)

  /** Employees have no numeric field to parse; the parser is never consulted. */
  function NoParse(s: string): Option<real>
  {
    None
  }

  /** JavaScript truthiness makes a tenure of 0 a missing field: the reply names
      `antiguedad` and nothing is written. */
  lemma ZeroTenureRejected(docs: Table, body: Doc, caller: Option<string>,
                           parse: string -> Option<real>, newId: Id)
    requires Truthy(Field(body, "nombre")) && Truthy(Field(body, "email"))
    requires Truthy(Field(body, "rol")) && Truthy(Field(body, "dni"))
    requires Field(body, "antiguedad") == Num(0.0)
    ensures UpsertSpec(Cfg, docs, body, caller, parse, newId)
              == (BadRequest("El campo antiguedad es requerido"), docs)
  {
    assert Required[..4] == ["nombre", "email", "rol", "dni"];
    assert AllPresent(body, Required[..4]);
    assert Required[4] == "antiguedad";
    assert RequiredMsg("antiguedad") == "El campo antiguedad es requerido";
    MissingFieldRejected(Cfg, docs, body, caller, parse, newId, 4);
  }

  /** The employee of the example scenario, as owner A submits her. */
  const Ana: Doc := map["nombre" := Str("Ana"), "email" := Str("a@x.com"), "rol" := Str("Admin"),
                        "dni" := Str("123"), "antiguedad" := Num(2.0), "pais" := Str("Chile")]

  /** Ana as the store holds her after owner A created her. */
  const AnaOfA: Doc := Ana["owner" := Str("a@x.com")]

  /** Ana passes validation and carries no id of her own. */
  lemma AnaAccepted()
    ensures Accepted(Cfg, Ana, NoParse) && !Truthy(Field(Ana, "id"))
  {
    assert Field(Ana, "nombre") == Str("Ana");
    assert Field(Ana, "email") == Str("a@x.com");
    assert Field(Ana, "rol") == Str("Admin");
    assert Field(Ana, "dni") == Str("123");
    assert Field(Ana, "antiguedad") == Num(2.0);
    assert Field(Ana, "pais") == Str("Chile");
    assert AllPresent(Ana, Required);
    FirstMissingIsFirst(Ana, Required);
    assert "id" !in Ana;
  }

  /** None of Ana's field names is reserved and none of her values is undefined. */
  lemma AnaStorable()
    ensures Storable(Ana)
  {
    assert Ana.Keys == {"nombre", "email", "rol", "dni", "antiguedad", "pais"};
    assert !ReservedName("nombre") && !ReservedName("email") && !ReservedName("rol");
    assert !ReservedName("dni") && !ReservedName("antiguedad") && !ReservedName("pais");
  }

  /** Owner A's create of Ana takes the create path and stamps A as owner. */
  lemma AnaCreatedByA(docs: Table, newId: Id)
    ensures UpsertSpec(Cfg, docs, Ana, Some("a@x.com"), NoParse, newId)
              == (Created(Entry(newId, AnaOfA)), docs[newId := AnaOfA])
  {
    AnaAccepted();
    AnaStorable();
    CreatePath(Cfg, docs, Ana, "a@x.com", NoParse, newId);
  }

  /** The stored Ana is owned by A, not by B, and has no id of her own. */
  lemma AnaOfAOwner()
    ensures Field(AnaOfA, "owner") == Str("a@x.com") && "id" !in AnaOfA
    ensures OwnerMatches(AnaOfA, Some("a@x.com")) && !OwnerMatches(AnaOfA, Some("b@x.com"))
  {
    assert "id" !in Ana;
  }

  /** Owner A creates Ana (201, fresh id, owner A); owner B does not see her and may
      not delete her (403, no change); A may (200), after which she is gone. */
  lemma OwnersScenario(docs: Table, newId: Id)
    requires newId !in docs
    ensures var (created, t1) := UpsertSpec(Cfg, docs, Ana, Some("a@x.com"), NoParse, newId);
      && created.Status() == 201
      && Field(created.doc, "id") == Str(newId) && Field(created.doc, "owner") == Str("a@x.com")
      && newId in Visible(t1, Some("a@x.com")) && newId !in Visible(t1, Some("b@x.com"))
      && DeleteSpec(t1, newId, Some("b@x.com")) == (Forbidden, t1)
      && DeleteSpec(t1, newId, Some("a@x.com")) == (Removed, docs)
  {
    AnaCreatedByA(docs, newId);
    AnaOfAOwner();
    var t1 := docs[newId := AnaOfA];
    assert Entry(newId, AnaOfA)["id"] == Str(newId);
    assert Entry(newId, AnaOfA)["owner"] == Str("a@x.com");
    assert t1 - {newId} == docs;
  }
}
