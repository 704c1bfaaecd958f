/** `SedesService`: the campuses. A campus is deleted only once no
    department belongs to it, so every department keeps pointing at a stored
    campus. */
module Sedes {
  import opened Common
  import opened Schema

  /** The fields of `UpdateSedeDto`; `None` leaves a column as it is. */
  datatype SedeChanges = SedeChanges(
    nombre: Option<string>,
    direccion: Option<string>,
    telefono: Option<string>,
    email: Option<string>,
    activo: Option<bool>)

  function ApplySede(s: Sede, c: SedeChanges): (r: Sede)
    ensures c.nombre.None? && c.direccion.None? && c.telefono.None? && c.email.None? && c.activo.None? ==> r == s
    ensures c.nombre.Some? ==> r.nombre == c.nombre.value
    ensures c.nombre.None? ==> r.nombre == s.nombre
    ensures c.direccion.Some? ==> r.direccion == c.direccion
    ensures c.direccion.None? ==> r.direccion == s.direccion
    ensures c.telefono.Some? ==> r.telefono == c.telefono
    ensures c.telefono.None? ==> r.telefono == s.telefono
    ensures c.email.Some? ==> r.email == c.email
    ensures c.email.None? ==> r.email == s.email
    ensures c.activo.Some? ==> r.activo == c.activo.value
    ensures c.activo.None? ==> r.activo == s.activo
  {
    Sede(c.nombre.GetOr(s.nombre),
      if c.direccion.Some? then c.direccion else s.direccion,
      if c.telefono.Some? then c.telefono else s.telefono,
      if c.email.Some? then c.email else s.email,
      c.activo.GetOr(s.activo))
  }

  /** The departments of a campus, the `include: { dependencias: true }` of
      `findOne` and `remove`. */
  function DependenciasOf(dependencias: map<string, Dependencia>, sedeId: string): (ids: set<string>)
    ensures forall d :: d in ids <==> d in dependencias && dependencias[d].sedeId == sedeId
  {
    set d | d in dependencias && dependencias[d].sedeId == sedeId
  }

  /** A campus with its departments. */
  datatype SedeView = SedeView(sede: Sede, dependencias: set<string>)

  /** `findOne(id)`. */
  function FindOne(db: Db, id: string): (r: Result<SedeView>)
    reads db
    ensures r.Ok? <==> id in db.sedes
    ensures r.Err? ==> r.error == NotFound
    ensures r.Ok? ==> r.value.sede == db.sedes[id] && r.value.dependencias == DependenciasOf(db.dependencias, id)
  {
    if id in db.sedes then Ok(SedeView(db.sedes[id], DependenciasOf(db.dependencias, id))) else Err(NotFound)
  }

  /** `update(id, dto)`: only that campus changes. */
  method Update(db: Db, id: string, c: SedeChanges) returns (r: Result<Sede>)
    requires db.Valid()
    modifies db
    ensures db.Valid()
    ensures id !in old(db.sedes) ==> r == Err(NotFound) && unchanged(db)
    ensures id in old(db.sedes) ==>
      && r == Ok(ApplySede(old(db.sedes)[id], c))
      && db.sedes == old(db.sedes)[id := r.value]
    ensures unchanged(db`casos, db`seguimientos, db`archivos, db`users, db`roles, db`dependencias, db`publicaciones)
  {
    if id !in db.sedes {
      return Err(NotFound);
    }
    var sede := ApplySede(db.sedes[id], c);
    db.sedes := db.sedes[id := sede];
    r := Ok(sede);
  }

  /** `remove(id)`: refused while any department belongs to the campus. */
  method Remove(db: Db, id: string) returns (r: Result<()>)
    requires db.Valid()
    modifies db
    ensures db.Valid()
    ensures id !in old(db.sedes) ==> r == Err(NotFound) && unchanged(db)
    ensures id in old(db.sedes) && DependenciasOf(old(db.dependencias), id) != {} ==>
      r == Err(BadRequest) && unchanged(db)
    ensures id in old(db.sedes) && DependenciasOf(old(db.dependencias), id) == {} ==>
      r == Ok(()) && db.sedes == old(db.sedes) - {id}
    ensures unchanged(db`casos, db`seguimientos, db`archivos, db`users, db`roles, db`dependencias, db`publicaciones)
  {
    if id !in db.sedes {
      return Err(NotFound);
    }
    if |DependenciasOf(db.dependencias, id)| > 0 {
      return Err(BadRequest);
    }
    db.sedes := db.sedes - {id};
    r := Ok(());
  }
}
