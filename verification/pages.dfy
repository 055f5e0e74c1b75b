/** The list pages (employees and products): form state and the list mirror, driven by
    the React handlers. Network calls are replaced by the answer they produced. */
module Pages {
  import opened Js
  import opened ListMirror

  /** What distinguishes the two pages: the form fields and the one filtered input. */
  datatype PageConfig = PageConfig(fields: seq<FieldName>, filtered: FieldName, filter: InputFilter)

  const EmpleadosPage: PageConfig :=
    PageConfig(["nombre", "email", "rol", "dni", "antiguedad", "pais"], "dni", Digits)

  const ProductosPage: PageConfig :=
    PageConfig(["nombre", "categoria", "precio", "moneda"], "precio", DigitsAndDot)

  /** `{ nombre: '', ... }`: every field empty. */
  function BlankForm(fields: seq<FieldName>): (form: Doc)
    ensures form.Keys == set f | f in fields
    ensures forall f :: f in form ==> form[f] == Str("")
  {
    map f | f in fields :: Str("")
  }

  /** The form opened for a new record: every field empty and `owner` set to
      `user?.email || ''`. */
  function NewForm(fields: seq<FieldName>, email: Option<string>): (form: Doc)
    ensures form.Keys == (set f | f in fields) + {"owner"}
    ensures forall f :: f in fields && f != "owner" ==> form[f] == Str("")
    ensures form["owner"] == Str(if email.Some? then email.value else "")
  {
    BlankForm(fields)["owner" := Str(match email case Some(e) => e case None => "")]
  }

  /** The body `handleSubmit` sends: the form, plus the edited record's id when editing.
      An undefined id is dropped by `JSON.stringify`. */
  function SubmitPayload(form: Doc, editing: Option<Doc>): (body: Doc)
    ensures editing.None? ==> body == form
    ensures editing.Some? ==> Field(body, "id") == Field(editing.value, "id")
    ensures forall f :: f != "id" ==> Field(body, f) == Field(form, f)
  {
    match editing
    case None => form
    case Some(e) => if "id" in e then form["id" := e["id"]] else form - {"id"}
  }

  /** The employee page filters `dni` to digits: separators and letters are dropped. */
  lemma DniKeepsDigitsOnly()
    ensures Sanitise(EmpleadosPage.filter, "12.345") == "12345"
  {
    assert "12.345" == "12" + ("." + "345");
    SanitiseConcat(Digits, "12", "." + "345");
    SanitiseConcat(Digits, ".", "345");
    SanitiseClean(Digits, "12");
    SanitiseClean(Digits, "345");
  }

  /** The product page filters `precio` to digits and dots, and does not limit the
      number of dots: a text that cannot be a price survives the filter. */
  lemma PrecioKeepsEveryDot()
    ensures Sanitise(ProductosPage.filter, "1.2.3$") == "1.2.3"
  {
    assert "1.2.3$" == "1.2.3" + "$";
    SanitiseConcat(DigitsAndDot, "1.2.3", "$");
    SanitiseClean(DigitsAndDot, "1.2.3");
  }

  /** A new employee form holds exactly the six employee fields and `owner`. */
  lemma EmpleadosNewForm(email: Option<string>)
    ensures NewForm(EmpleadosPage.fields, email).Keys
              == {"nombre", "email", "rol", "dni", "antiguedad", "pais", "owner"}
    ensures NewForm(EmpleadosPage.fields, email)["dni"] == Str("")
  {
    var fields := EmpleadosPage.fields;
    assert (set f | f in fields) == {"nombre", "email", "rol", "dni", "antiguedad", "pais"};
  }

  /** A new product form holds exactly the four product fields and `owner`. */
  lemma ProductosNewForm(email: Option<string>)
    ensures NewForm(ProductosPage.fields, email).Keys == {"nombre", "categoria", "precio", "moneda", "owner"}
    ensures NewForm(ProductosPage.fields, email)["precio"] == Str("")
  {
    var fields := ProductosPage.fields;
    assert (set f | f in fields) == {"nombre", "categoria", "precio", "moneda"};
  }

  /** One mounted page component and its state hooks. */
  class Page {
    const config: PageConfig
    /** `user?.email` of the signed-in user. */
    const userEmail: Option<string>
    /** The list shown (`empleados` / `productos`). */
    var items: seq<Doc>
    var form: Doc
    /** The record being edited (`empleadoEditando` / `productoEditando`). */
    var editing: Option<Doc>
    var modalOpen: bool

    constructor (config: PageConfig, userEmail: Option<string>)
      ensures this.config == config && this.userEmail == userEmail
      ensures items == [] && form == BlankForm(config.fields) && editing == None && !modalOpen
    {
      this.config := config;
      this.userEmail := userEmail;
      items := [];
      form := BlankForm(config.fields);
      editing := None;
      modalOpen := false;
    }

    /** `abrirModal(record)`: edit a copy of the record, or start a new one. */
    method AbrirModal(record: Option<Doc>)
      modifies this
      ensures editing == record && modalOpen && items == old(items)
      ensures form == if record.Some? then record.value else NewForm(config.fields, userEmail)
    {
      if record.Some? {
        editing := record;
        form := record.value;
      } else {
        editing := None;
        form := NewForm(config.fields, userEmail);
      }
      modalOpen := true;
    }

    /** `cerrarModal()` */
    method CerrarModal()
      modifies this
      ensures !modalOpen && editing == None && items == old(items) && form == old(form)
    {
      modalOpen := false;
      editing := None;
    }

    /** `handleInputChange`: the filtered field keeps only the characters its filter
        allows; any other field takes the input as typed; no other field changes. */
    method HandleInputChange(name: FieldName, value: string)
      modifies this
      ensures form == old(form)[name := Str(if name == config.filtered then Sanitise(config.filter, value) else value)]
      ensures items == old(items) && editing == old(editing) && modalOpen == old(modalOpen)
    {
      if name == config.filtered {
        var filtrado := Sanitise(config.filter, value);
        form := form[name := Str(filtrado)];
      } else {
        form := form[name := Str(value)];
      }
    }

    /** `handleSubmit`: sends `body`; `answer` is the record the server returned, or
        `None` when the service reported a failure (then only an alert is shown). */
    method HandleSubmit(answer: Option<Doc>) returns (body: Doc)
      modifies this
      ensures body == SubmitPayload(old(form), old(editing))
      ensures form == old(form)
      ensures answer.None? ==> items == old(items) && editing == old(editing) && modalOpen == old(modalOpen)
      ensures answer.Some? ==> !modalOpen && editing == None
      ensures answer.Some? && old(editing).Some? ==>
        items == ReplaceById(old(items), Field(old(editing).value, "id"), answer.value)
      ensures answer.Some? && old(editing).None? ==> items == old(items) + [answer.value]
    {
      body := SubmitPayload(form, editing);
      if answer.None? {
        return;
      }
      match editing {
        case Some(e) =>
          items := ReplaceById(items, Field(e, "id"), answer.value);
        case None =>
          items := items + [answer.value];
      }
      CerrarModal();
    }

    /** `eliminarEmpleado(id)` / `eliminarProducto(id)`: `confirmed` is the user's answer
        to the confirmation dialog, `deleted` whether the service reported success. */
    method Eliminar(id: Value, confirmed: bool, deleted: bool)
      modifies this
      ensures items == if confirmed && deleted then RemoveById(old(items), id) else old(items)
      ensures form == old(form) && editing == old(editing) && modalOpen == old(modalOpen)
    {
      if confirmed && deleted {
        items := RemoveById(items, id);
      }
    }
  }
}
