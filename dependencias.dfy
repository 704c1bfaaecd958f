/** `DependenciasService`: the departments of a campus. A department is
    created or moved only onto an existing campus. */
module Dependencias {
  import opened Common
  import opened Schema
  import Sedes

  /** The fields of `CreateDependenciaDto`. */
  datatype DependenciaInput = DependenciaInput(
    nombre: string,
    descripcion: Option<string>,
    jefe: Option<string>,
    sedeId: string,
    activo: Option<bool>)

  /** The fields of `UpdateDependenciaDto`. */
  datatype DependenciaChanges = DependenciaChanges(
    nombre: Option<string>,
    descripcion: Option<string>,
    jefe: Option<string>,
    sedeId: Option<string>,
    activo: Option<bool>)

  const DefaultActivo: bool := true

  function NewDependencia(input: DependenciaInput): (d: Dependencia)
    ensures d.nombre == input.nombre && d.sedeId == input.sedeId
    ensures d.descripcion == input.descripcion && d.jefe == input.jefe
    ensures d.activo == input.activo.GetOr(DefaultActivo)
  {
    Dependencia(input.nombre, input.descripcion, input.jefe, input.sedeId, input.activo.GetOr(DefaultActivo))
  }

  function ApplyDependencia(d: Dependencia, c: DependenciaChanges): (r: Dependencia)
    ensures c.sedeId.Some? ==> r.sedeId == c.sedeId.value
    ensures c.sedeId.None? ==> r.sedeId == d.sedeId
    ensures c.nombre.Some? ==> r.nombre == c.nombre.value
    ensures c.nombre.None? ==> r.nombre == d.nombre
    ensures c.descripcion.Some? ==> r.descripcion == c.descripcion
    ensures c.descripcion.None? ==> r.descripcion == d.descripcion
    ensures c.jefe.Some? ==> r.jefe == c.jefe
    ensures c.jefe.None? ==> r.jefe == d.jefe
    ensures c.activo.Some? ==> r.activo == c.activo.value
    ensures c.activo.None? ==> r.activo == d.activo
  {
    Dependencia(c.nombre.GetOr(d.nombre),
      if c.descripcion.Some? then c.descripcion else d.descripcion,
      if c.jefe.Some? then c.jefe else d.jefe,
      c.sedeId.GetOr(d.sedeId),
      c.activo.GetOr(d.activo))
  }

  /** `create(dto)`; `id` is the generated key. */
  method Create(db: Db, id: string, input: DependenciaInput) returns (r: Result<Dependencia>)
    requires db.Valid()
    requires id !in db.dependencias
    modifies db
    ensures db.Valid()
    ensures input.sedeId !in old(db.sedes) ==> r == Err(NotFound) && unchanged(db)
    ensures input.sedeId in old(db.sedes) ==>
      && r == Ok(NewDependencia(input))
      && db.dependencias == old(db.dependencias)[id := r.value]
    ensures unchanged(db`casos, db`seguimientos, db`archivos, db`users, db`roles, db`sedes, db`publicaciones)
  {
    if input.sedeId !in db.sedes {
      return Err(NotFound);
    }
    var d := NewDependencia(input);
    db.dependencias := db.dependencias[id := d];
    r := Ok(d);
  }

  /** `findOne(id)`: the department with its campus. */
  function FindOne(db: Db, id: string): (r: Result<(Dependencia, Sede)>)
    reads db
    requires db.DependenciasReferToSedes()
    ensures r.Ok? <==> id in db.dependencias
    ensures r.Err? ==> r.error == NotFound
    ensures r.Ok? ==> r.value.0 == db.dependencias[id] && r.value.1 == db.sedes[db.dependencias[id].sedeId]
  {
    if id in db.dependencias then Ok((db.dependencias[id], db.sedes[db.dependencias[id].sedeId]))
    else Err(NotFound)
  }

  /** `update(id, dto)`: a new campus is checked only when the
      request names one (the request validation refuses an empty one). */
  method Update(db: Db, id: string, c: DependenciaChanges) returns (r: Result<Dependencia>)
    requires db.Valid()
    requires c.sedeId.Some? ==> c.sedeId.value != ""
    modifies db
    ensures db.Valid()
    ensures id !in old(db.dependencias) ==> r == Err(NotFound) && unchanged(db)
    ensures id in old(db.dependencias) && c.sedeId.Some? && c.sedeId.value !in old(db.sedes) ==>
      r == Err(NotFound) && unchanged(db)
    ensures r.Ok? <==> id in old(db.dependencias) && (c.sedeId.Some? ==> c.sedeId.value in old(db.sedes))
    ensures r.Ok? ==>
      && r.value == ApplyDependencia(old(db.dependencias)[id], c)
      && db.dependencias == old(db.dependencias)[id := r.value]
    ensures unchanged(db`casos, db`seguimientos, db`archivos, db`users, db`roles, db`sedes, db`publicaciones)
  {
    if id !in db.dependencias {
      return Err(NotFound);
    }
    if Truthy(c.sedeId) && c.sedeId.value !in db.sedes {
      return Err(NotFound);
    }
    var d := ApplyDependencia(db.dependencias[id], c);
    db.dependencias := db.dependencias[id := d];
    r := Ok(d);
  }

  /** `remove(id)`. */
  method Remove(db: Db, id: string) returns (r: Result<()>)
    requires db.Valid()
    modifies db
    ensures db.Valid()
    ensures id !in old(db.dependencias) ==> r == Err(NotFound) && unchanged(db)
    ensures id in old(db.dependencias) ==> r == Ok(()) && db.dependencias == old(db.dependencias) - {id}
    ensures unchanged(db`casos, db`seguimientos, db`archivos, db`users, db`roles, db`sedes, db`publicaciones)
  {
    if id !in db.dependencias {
      return Err(NotFound);
    }
    db.dependencias := db.dependencias - {id};
    r := Ok(());
  }

  /** Once its last department is removed, a campus can be removed. */
  lemma LastDependenciaUnblocksSede(dependencias: map<string, Dependencia>, id: string, sedeId: string)
    requires id in dependencias
    requires Sedes.DependenciasOf(dependencias, sedeId) == {id}
    ensures Sedes.DependenciasOf(dependencias - {id}, sedeId) == {}
  {
  }
}
