/** The server's routes: every resource route and the token check run the auth gate
    first, and reach their handler only when it lets the request through. */
module Routes {
  import opened Js
  import opened Store
  import opened OwnerCrud
  import AuthGate
  import CrudCtrl
  import Empleados
  import Productos

  datatype Route =
    | ListEmpleados                    // GET /empleados
    | UpsertEmpleado(body: Doc)        // POST /empleados/upsert
    | DeleteEmpleado(id: Id)           // DELETE /empleados/:id
    | ListProductos                    // GET /productos
    | UpsertProducto(body: Doc)        // POST /productos/upsert
    | DeleteProducto(id: Id)           // DELETE /productos/:id
    | CheckToken                       // GET /verificar-token

  /** The response: the gate's rejection, the token check's answer, or a handler's reply. */
  datatype HttpReply =
    | Rejected(status: int)
    | TokenValid(usuario: AuthGate.Claims)
    | Handled(reply: Reply)

  /** Bodies arrive through `bodyParser.json({ limit: '1mb' })`, so they hold no undefined value. */
  predicate FromJson(route: Route)
  {
    match route
    case UpsertEmpleado(body) => Defined(body)
    case UpsertProducto(body) => Defined(body)
    case _ => true
  }

  /** What a route's handler does for the caller the gate let through. */
  method Dispatch(route: Route, claims: AuthGate.Claims, parse: string -> Option<real>,
                  empleados: Collection, productos: Collection)
    returns (r: HttpReply, ghost ids: seq<Id>)
    requires empleados != productos && empleados.Valid() && productos.Valid() && FromJson(route)
    modifies empleados, productos
    ensures empleados.Valid() && productos.Valid()
    ensures route.CheckToken? ==> r == TokenValid(claims)
    ensures route.ListEmpleados? ==>
      r.Handled? && r.reply.Listed? && ExactListing(r.reply.items, ids, empleados.docs, claims.email)
    ensures route.ListProductos? ==>
      r.Handled? && r.reply.Listed? && ExactListing(r.reply.items, ids, productos.docs, claims.email)
    ensures route.UpsertEmpleado? ==>
      r.Handled? && (r.reply, empleados.docs)
        == UpsertSpec(Empleados.Cfg, old(empleados.docs), route.body, claims.email, parse, old(empleados.NewDocRef()))
    ensures route.DeleteEmpleado? ==>
      r.Handled? && (r.reply, empleados.docs) == DeleteSpec(old(empleados.docs), route.id, claims.email)
    ensures route.UpsertProducto? ==>
      r.Handled? && (r.reply, productos.docs)
        == UpsertSpec(Productos.Cfg, old(productos.docs), route.body, claims.email, parse, old(productos.NewDocRef()))
    ensures route.DeleteProducto? ==>
      r.Handled? && (r.reply, productos.docs) == DeleteSpec(old(productos.docs), route.id, claims.email)
    ensures !(route.UpsertEmpleado? || route.DeleteEmpleado?) ==> empleados.docs == old(empleados.docs)
    ensures !(route.UpsertProducto? || route.DeleteProducto?) ==> productos.docs == old(productos.docs)
  {
    var caller := claims.email;
    var reply: Reply;
    match route {
      case CheckToken =>
        return TokenValid(claims), [];
      case ListEmpleados =>
        reply, ids := CrudCtrl.All(empleados, caller);
        return Handled(reply), ids;
      case UpsertEmpleado(body) =>
        reply := CrudCtrl.Upsert(Empleados.Cfg, empleados, body, caller, parse);
        return Handled(reply), [];
      case DeleteEmpleado(id) =>
        reply := CrudCtrl.Delete(empleados, id, caller);
        return Handled(reply), [];
      case ListProductos =>
        reply, ids := CrudCtrl.All(productos, caller);
        return Handled(reply), ids;
      case UpsertProducto(body) =>
        reply := CrudCtrl.Upsert(Productos.Cfg, productos, body, caller, parse);
        return Handled(reply), [];
      case DeleteProducto(id) =>
        reply := CrudCtrl.Delete(productos, id, caller);
        return Handled(reply), [];
    }
  }

  /** One request on `route` with the given `Authorization` header: the gate runs
      first, and the handler only when the gate lets the request through. */
  method Handle(route: Route, authorization: Option<string>, verify: string -> Option<AuthGate.Claims>,
                parse: string -> Option<real>, empleados: Collection, productos: Collection)
    returns (r: HttpReply, ghost ids: seq<Id>)
    requires empleados != productos && empleados.Valid() && productos.Valid() && FromJson(route)
    modifies empleados, productos
    ensures empleados.Valid() && productos.Valid()
    ensures AuthGate.Gate(authorization, verify) == AuthGate.Unauth401 ==>
      r == Rejected(401) && empleados.docs == old(empleados.docs) && productos.docs == old(productos.docs)
    ensures AuthGate.Gate(authorization, verify) == AuthGate.Forbidden403 ==>
      r == Rejected(403) && empleados.docs == old(empleados.docs) && productos.docs == old(productos.docs)
    ensures AuthGate.Gate(authorization, verify).Proceed? ==>
      var caller := AuthGate.Gate(authorization, verify).claims.email;
      && (route.CheckToken? ==> r == TokenValid(AuthGate.Gate(authorization, verify).claims))
      && (route.ListEmpleados? ==>
            r.Handled? && r.reply.Listed? && ExactListing(r.reply.items, ids, empleados.docs, caller))
      && (route.ListProductos? ==>
            r.Handled? && r.reply.Listed? && ExactListing(r.reply.items, ids, productos.docs, caller))
      && (route.UpsertEmpleado? ==>
            r.Handled? && (r.reply, empleados.docs)
              == UpsertSpec(Empleados.Cfg, old(empleados.docs), route.body, caller, parse, old(empleados.NewDocRef())))
      && (route.DeleteEmpleado? ==>
            r.Handled? && (r.reply, empleados.docs) == DeleteSpec(old(empleados.docs), route.id, caller))
      && (route.UpsertProducto? ==>
            r.Handled? && (r.reply, productos.docs)
              == UpsertSpec(Productos.Cfg, old(productos.docs), route.body, caller, parse, old(productos.NewDocRef())))
      && (route.DeleteProducto? ==>
            r.Handled? && (r.reply, productos.docs) == DeleteSpec(old(productos.docs), route.id, caller))
      && (!(route.UpsertEmpleado? || route.DeleteEmpleado?) ==> empleados.docs == old(empleados.docs))
      && (!(route.UpsertProducto? || route.DeleteProducto?) ==> productos.docs == old(productos.docs))
  {
    var ex := new AuthGate.Exchange(authorization);
    var gate := AuthGate.VerificarToken(ex, verify);
    if !gate.Proceed? {
      return Rejected(ex.status.value), [];
    }
    r, ids := Dispatch(route, ex.usuario.value, parse, empleados, productos);
  }
}
