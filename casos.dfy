/** The case lifecycle of `CasosService`: registration with a generated code
    and due date, updates that write the tracking ledger, assignment, follow-up
    entries that claim the case's files, archiving, and the guards in front of
    sending the registration certificate by mail. Fresh row ids (database
    uuids) and the clock are parameters. */
module Casos {
  import opened Common
  import opened Schema
  import opened CaseCodes

  // ---------------------------------------------------------------- registration

  /** The fields of a registration request (`CreateCasoDto`). */
  datatype CasoInput = CasoInput(
    tipo: CaseType,
    prioridad: Option<Priority>,
    descripcionHechos: string,
    derechosAfectados: string,
    esAnonimo: Option<bool>,
    requiereMediacion: Option<bool>,
    esConfidencial: Option<bool>,
    etiquetas: Option<seq<string>>,
    reclamante: Option<Reclamante>,
    reclamado: Option<Reclamado>)

  /** `calcularFechaLimite()`: 28 calendar days after now. */
  function CalcularFechaLimite(now: Instant): (limite: Instant)
    ensures limite > now
    ensures (limite - now) % SecondsPerDay == 0 && (limite - now) / SecondsPerDay == DeadlineDays
  {
    now + DeadlineDays * SecondsPerDay
  }

  /** The row `create` inserts: the request with its defaults filled in. The
      status and the creation date are column defaults of the database; the
      creation date is taken to be the same instant as the deadline's `now`. */
  function NewCaso(input: CasoInput, codigo: string, now: Instant): (c: Caso)
    ensures c.codigo == codigo && c.tipo == input.tipo && c.estado == PENDIENTE
    ensures c.fechaCreacion == now && c.fechaLimite == CalcularFechaLimite(now)
    ensures c.descripcionHechos == input.descripcionHechos && c.derechosAfectados == input.derechosAfectados
    ensures c.reclamante == input.reclamante && c.reclamado == input.reclamado
    ensures input.prioridad.None? ==> c.prioridad == MEDIA
    ensures input.prioridad.Some? ==> c.prioridad == input.prioridad.value
    ensures c.esAnonimo <==> input.esAnonimo == Some(true)
    ensures c.requiereMediacion <==> input.requiereMediacion == Some(true)
    ensures c.esConfidencial <==> input.esConfidencial == Some(true)
    ensures input.etiquetas.None? ==> c.etiquetas == []
    ensures input.etiquetas.Some? ==> c.etiquetas == input.etiquetas.value
    ensures c.asignadoA.None? && c.fechaResolucion.None?
  {
    Caso(
      codigo := codigo,
      tipo := input.tipo,
      prioridad := input.prioridad.GetOr(MEDIA),
      descripcionHechos := input.descripcionHechos,
      derechosAfectados := input.derechosAfectados,
      fechaCreacion := now,
      fechaLimite := CalcularFechaLimite(now),
      esAnonimo := input.esAnonimo.GetOr(false),
      requiereMediacion := input.requiereMediacion.GetOr(false),
      esConfidencial := input.esConfidencial.GetOr(false),
      etiquetas := input.etiquetas.GetOr([]),
      estado := PENDIENTE,
      asignadoA := None,
      asignadoNombre := None,
      resolucion := None,
      recomendaciones := None,
      fechaResolucion := None,
      reclamante := input.reclamante,
      reclamado := input.reclamado)
  }

  /** The "Caso creado" entry, written only when both actor fields are present. */
  function InitialEntries(casoId: string, entryId: string, codigo: string,
                          usuarioId: Option<string>, usuarioNombre: Option<string>, now: Instant)
    : (s: seq<Seguimiento>)
    ensures |s| <= 1
    ensures |s| == 1 <==> Truthy(usuarioId) && Truthy(usuarioNombre)
    ensures |s| == 1 ==> && s[0].casoId == casoId && s[0].accion == "Caso creado"
                         && s[0].estadoNuevo == Some(PENDIENTE) && s[0].estadoAnterior.None?
                         && s[0].esVisible && s[0].usuarioId == usuarioId
  {
    if Truthy(usuarioId) && Truthy(usuarioNombre) then
      [Seguimiento(entryId, casoId, usuarioId, usuarioNombre.value, "Caso creado",
        "Caso " + codigo + " registrado en el sistema", None, Some(PENDIENTE), true, now)]
    else []
  }

  /** The controller always supplies a name (`user?.name || 'Usuario Anónimo'`),
      so the initial entry is written exactly when there is a user id. */
  lemma InitialEntryThroughController(casoId: string, entryId: string, codigo: string,
                                      sub: Option<string>, name: Option<string>, now: Instant)
    ensures |InitialEntries(casoId, entryId, codigo, sub, Some(OrElse(name, "Usuario Anónimo")), now)| == 1
      <==> Truthy(sub)
  {
  }

  /** `create(dto, usuarioId, usuarioNombre)`: generate the code, insert the
      case (the unique `codigo` column refuses a repeated code), then write the
      initial ledger entry. */
  method Create(db: Db, id: string, entryId: string, input: CasoInput,
                usuarioId: Option<string>, usuarioNombre: Option<string>, now: Instant, year: nat)
    returns (r: Result<Caso>)
    requires db.Valid()
    requires id !in db.casos
    requires |input.descripcionHechos| >= 20 && |input.derechosAfectados| >= 20
    modifies db
    ensures db.Valid()
    ensures var code := GeneratedCode(Codes(old(db.casos)), input.tipo, year);
      && (code in Codes(old(db.casos)) ==> r == Err(UniqueViolation) && unchanged(db))
      && (code !in Codes(old(db.casos)) ==>
            && r == Ok(NewCaso(input, code, now))
            && db.casos == old(db.casos)[id := r.value]
            && db.seguimientos == old(db.seguimientos) + InitialEntries(id, entryId, code, usuarioId, usuarioNombre, now))
    ensures FourDigitSequences(Codes(old(db.casos)), CodePrefix(input.tipo, year)) ==> r.Ok?
    ensures unchanged(db`archivos, db`users, db`roles, db`sedes, db`dependencias, db`publicaciones)
  {
    var codes := Codes(db.casos);
    var code := GenerarCodigo(codes, input.tipo, year);
    if code in codes {
      if FourDigitSequences(codes, CodePrefix(input.tipo, year)) {
        GeneratedCodeIsFresh(codes, input.tipo, year);
        assert false;
      }
      return Err(UniqueViolation);
    }
    var caso := NewCaso(input, code, now);
    assert forall other :: other in db.casos ==> db.casos[other].codigo != code;
    WriteCaso(db, id, caso);
    AppendEntries(db, InitialEntries(id, entryId, code, usuarioId, usuarioNombre, now));
    r := Ok(caso);
  }

  /** `caso.create` or `caso.update` of one row: its code must differ from
      every other case's and its deadline lie 28 days after its creation. */
  method WriteCaso(db: Db, id: string, caso: Caso)
    requires db.Valid()
    requires forall other :: other in db.casos && other != id ==> db.casos[other].codigo != caso.codigo
    requires caso.fechaLimite == caso.fechaCreacion + DeadlineDays * SecondsPerDay
    modifies db
    ensures db.Valid()
    ensures db.casos == old(db.casos)[id := caso]
    ensures unchanged(db`seguimientos, db`archivos, db`users, db`roles, db`sedes, db`dependencias, db`publicaciones)
  {
    db.casos := db.casos[id := caso];
  }

  /** `seguimiento.create` of entries that each belong to a stored case. */
  method AppendEntries(db: Db, entries: seq<Seguimiento>)
    requires db.Valid()
    requires forall i :: 0 <= i < |entries| ==> entries[i].casoId in db.casos
    modifies db
    ensures db.Valid()
    ensures db.seguimientos == old(db.seguimientos) + entries
    ensures unchanged(db`casos, db`archivos, db`users, db`roles, db`sedes, db`dependencias, db`publicaciones)
  {
    db.seguimientos := db.seguimientos + entries;
  }

  // ---------------------------------------------------------------- updates

  /** The fields of an update request (`UpdateCasoDto`); an absent field is left as it is. */
  datatype CasoChanges = CasoChanges(
    estado: Option<Estado>,
    prioridad: Option<Priority>,
    asignadoA: Option<string>,
    asignadoNombre: Option<string>,
    resolucion: Option<string>,
    recomendaciones: Option<string>,
    fechaResolucion: Option<Instant>,
    etiquetas: Option<seq<string>>)

  function EstadoName(e: Estado): string {
    match e
    case PENDIENTE => "PENDIENTE"
    case EN_REVISION => "EN_REVISION"
    case EN_PROCESO => "EN_PROCESO"
    case RESUELTO => "RESUELTO"
    case ARCHIVADO => "ARCHIVADO"
    case RECHAZADO => "RECHAZADO"
  }

  /** The request names a status other than the current one. */
  predicate ChangesStatus(existing: Caso, changes: CasoChanges) {
    changes.estado.Some? && changes.estado.value != existing.estado
  }

  /** The request names an assignee other than the current one. */
  predicate ChangesAssignee(existing: Caso, changes: CasoChanges) {
    Truthy(changes.asignadoA) && changes.asignadoA != existing.asignadoA
  }

  /** The request after the resolution stamp: a status change to RESUELTO that
      carries no `fechaResolucion` gets the current instant. */
  function Stamped(existing: Caso, changes: CasoChanges, now: Instant): (c: CasoChanges)
    ensures c.estado == changes.estado && c.asignadoA == changes.asignadoA
    ensures ChangesStatus(existing, changes) && changes.estado == Some(RESUELTO) && changes.fechaResolucion.None?
      ==> c.fechaResolucion == Some(now)
    ensures existing.estado == RESUELTO ==> c == changes
    ensures changes.fechaResolucion.Some? ==> c == changes
  {
    if ChangesStatus(existing, changes) && changes.estado == Some(RESUELTO) && changes.fechaResolucion.None?
    then changes.(fechaResolucion := Some(now))
    else changes
  }

  /** `caso.update({ data })`: every field the request carries overwrites the row. */
  function Apply(existing: Caso, changes: CasoChanges): (c: Caso)
    ensures c.codigo == existing.codigo && c.tipo == existing.tipo
    ensures c.fechaCreacion == existing.fechaCreacion && c.fechaLimite == existing.fechaLimite
    ensures c.reclamante == existing.reclamante && c.reclamado == existing.reclamado
    ensures changes.estado.Some? ==> c.estado == changes.estado.value
    ensures changes.estado.None? ==> c.estado == existing.estado
  {
    var e := existing;
    Caso(e.codigo, e.tipo, changes.prioridad.GetOr(e.prioridad), e.descripcionHechos, e.derechosAfectados,
      e.fechaCreacion, e.fechaLimite, e.esAnonimo, e.requiereMediacion, e.esConfidencial,
      changes.etiquetas.GetOr(e.etiquetas), changes.estado.GetOr(e.estado),
      Keep(changes.asignadoA, e.asignadoA), Keep(changes.asignadoNombre, e.asignadoNombre),
      Keep(changes.resolucion, e.resolucion), Keep(changes.recomendaciones, e.recomendaciones),
      Keep(changes.fechaResolucion, e.fechaResolucion), e.reclamante, e.reclamado)
  }

  /** A nullable column the request may overwrite. */
  function Keep<T>(change: Option<T>, current: Option<T>): Option<T> {
    if change.Some? then change else current
  }

  /** The row `update` leaves behind. */
  function Updated(existing: Caso, changes: CasoChanges, now: Instant): Caso {
    Apply(existing, Stamped(existing, changes, now))
  }

  /** An update request that carries no field leaves the case as it is. */
  lemma EmptyUpdateChangesNothing(existing: Caso, now: Instant)
    ensures Updated(existing, CasoChanges(None, None, None, None, None, None, None, None), now) == existing
  {
    var none := CasoChanges(None, None, None, None, None, None, None, None);
    assert Stamped(existing, none, now) == none;
  }

  /** The "Caso asignado" entry, written before the case row changes. */
  function AssignmentEntries(casoId: string, entryId: string, existing: Caso, changes: CasoChanges,
                             usuarioId: Option<string>, usuarioNombre: Option<string>, now: Instant)
    : (s: seq<Seguimiento>)
    ensures |s| <= 1
    ensures |s| == 1 <==> ChangesAssignee(existing, changes) && Truthy(usuarioId) && Truthy(usuarioNombre)
    ensures |s| == 1 ==> && s[0].casoId == casoId && s[0].accion == "Caso asignado" && s[0].esVisible
                         && s[0].estadoAnterior.None? && s[0].estadoNuevo.None?
  {
    if ChangesAssignee(existing, changes) && Truthy(usuarioId) && Truthy(usuarioNombre) then
      var to := if Truthy(changes.asignadoNombre) then changes.asignadoNombre.value else changes.asignadoA.value;
      [Seguimiento(entryId, casoId, usuarioId, usuarioNombre.value, "Caso asignado",
        "Caso asignado a " + to, None, None, true, now)]
    else []
  }

  /** The "Cambio de estado" entry, written after the case row changes; the
      actor defaults to 'SYSTEM' / 'Sistema'. */
  function StatusEntries(casoId: string, entryId: string, existing: Caso, changes: CasoChanges,
                         usuarioId: Option<string>, usuarioNombre: Option<string>, now: Instant)
    : (s: seq<Seguimiento>)
    ensures |s| <= 1
    ensures |s| == 1 <==> ChangesStatus(existing, changes)
    ensures |s| == 1 ==> && s[0].casoId == casoId && s[0].accion == "Cambio de estado" && s[0].esVisible
                         && s[0].estadoAnterior == Some(existing.estado) && s[0].estadoNuevo == changes.estado
                         && s[0].usuarioId == Some(OrElse(usuarioId, "SYSTEM"))
                         && s[0].usuarioNombre == OrElse(usuarioNombre, "Sistema")
  {
    if ChangesStatus(existing, changes) then
      [Seguimiento(entryId, casoId, Some(OrElse(usuarioId, "SYSTEM")), OrElse(usuarioNombre, "Sistema"),
        "Cambio de estado",
        "Estado cambiado de " + EstadoName(existing.estado) + " a " + EstadoName(changes.estado.value),
        Some(existing.estado), changes.estado, true, now)]
    else []
  }

  /** `update(id, dto, usuarioId, usuarioNombre)`. */
  method Update(db: Db, id: string, changes: CasoChanges, usuarioId: Option<string>, usuarioNombre: Option<string>,
                assignEntryId: string, statusEntryId: string, now: Instant)
    returns (r: Result<Caso>)
    requires db.Valid()
    modifies db
    ensures db.Valid()
    ensures id !in old(db.casos) ==> r == Err(NotFound) && unchanged(db)
    ensures id in old(db.casos) ==>
      var existing := old(db.casos)[id];
      && r == Ok(Updated(existing, changes, now))
      && db.casos == old(db.casos)[id := r.value]
      && db.seguimientos == old(db.seguimientos)
           + AssignmentEntries(id, assignEntryId, existing, changes, usuarioId, usuarioNombre, now)
           + StatusEntries(id, statusEntryId, existing, changes, usuarioId, usuarioNombre, now)
    ensures unchanged(db`archivos, db`users, db`roles, db`sedes, db`dependencias, db`publicaciones)
  {
    if id !in db.casos {
      return Err(NotFound);
    }
    var existing := db.casos[id];
    var status := StatusEntries(id, statusEntryId, existing, changes, usuarioId, usuarioNombre, now);
    var stamped := Stamped(existing, changes, now);
    AppendEntries(db, AssignmentEntries(id, assignEntryId, existing, changes, usuarioId, usuarioNombre, now));
    var caso := Apply(existing, stamped);
    WriteCaso(db, id, caso);
    AppendEntries(db, status);
    r := Ok(caso);
  }

  /** The request `asignarCaso` hands to `update`. */
  function Assignment(asignadoA: string, nombre: string): CasoChanges {
    CasoChanges(Some(EN_REVISION), None, Some(asignadoA), Some(nombre), None, None, None, None)
  }

  /** Assignment always leaves the case in EN_REVISION with the assignee and
      their name, and never stamps a resolution date. */
  lemma AssignmentForcesReview(existing: Caso, asignadoA: string, nombre: string, now: Instant)
    ensures var c := Updated(existing, Assignment(asignadoA, nombre), now);
      && c.estado == EN_REVISION && c.asignadoA == Some(asignadoA) && c.asignadoNombre == Some(nombre)
      && c.fechaResolucion == existing.fechaResolucion
      && c.codigo == existing.codigo && c.fechaLimite == existing.fechaLimite
  {
  }

  /** `asignarCaso(id, asignadoA, usuarioId, usuarioNombre)`: the assignee must be a user. */
  method AsignarCaso(db: Db, id: string, asignadoA: string, usuarioId: Option<string>, usuarioNombre: Option<string>,
                     assignEntryId: string, statusEntryId: string, now: Instant)
    returns (r: Result<Caso>)
    requires db.Valid()
    modifies db
    ensures db.Valid()
    ensures asignadoA !in old(db.users) ==> r == Err(NotFound) && unchanged(db)
    ensures asignadoA in old(db.users) && id !in old(db.casos) ==> r == Err(NotFound) && unchanged(db)
    ensures asignadoA in old(db.users) && id in old(db.casos) ==>
      var existing, changes := old(db.casos)[id], Assignment(asignadoA, old(db.users)[asignadoA].name);
      && r == Ok(Updated(existing, changes, now))
      && db.casos == old(db.casos)[id := r.value]
      && db.seguimientos == old(db.seguimientos)
           + AssignmentEntries(id, assignEntryId, existing, changes, usuarioId, usuarioNombre, now)
           + StatusEntries(id, statusEntryId, existing, changes, usuarioId, usuarioNombre, now)
    ensures r.Ok? ==> r.value.estado == EN_REVISION && r.value.asignadoA == Some(asignadoA)
    ensures unchanged(db`archivos, db`users, db`roles, db`sedes, db`dependencias, db`publicaciones)
  {
    if asignadoA !in db.users {
      return Err(NotFound);
    }
    var changes := Assignment(asignadoA, db.users[asignadoA].name);
    if id in db.casos {
      AssignmentForcesReview(db.casos[id], asignadoA, db.users[asignadoA].name, now);
    }
    r := Update(db, id, changes, usuarioId, usuarioNombre, assignEntryId, statusEntryId, now);
  }

  /** The request `remove` hands to `update`. */
  const Archive: CasoChanges := CasoChanges(Some(ARCHIVADO), None, None, None, None, None, None, None)

  /** Archiving changes the status and nothing else, and never writes an
      assignment entry. */
  lemma ArchiveOnlyChangesStatus(casoId: string, entryId: string, existing: Caso,
                                 usuarioId: Option<string>, usuarioNombre: Option<string>, now: Instant)
    ensures Updated(existing, Archive, now) == existing.(estado := ARCHIVADO)
    ensures AssignmentEntries(casoId, entryId, existing, Archive, usuarioId, usuarioNombre, now) == []
  {
  }

  /** `remove(id)`: a soft delete that archives the case. */
  method Remove(db: Db, id: string, usuarioId: Option<string>, usuarioNombre: Option<string>,
                statusEntryId: string, now: Instant)
    returns (r: Result<()>)
    requires db.Valid()
    modifies db
    ensures db.Valid()
    ensures id !in old(db.casos) ==> r == Err(NotFound) && unchanged(db)
    ensures id in old(db.casos) ==>
      var existing := old(db.casos)[id];
      && r == Ok(())
      && db.casos == old(db.casos)[id := existing.(estado := ARCHIVADO)]
      && db.seguimientos == old(db.seguimientos)
           + StatusEntries(id, statusEntryId, existing, Archive, usuarioId, usuarioNombre, now)
    ensures db.casos.Keys == old(db.casos).Keys
    ensures unchanged(db`archivos, db`users, db`roles, db`sedes, db`dependencias, db`publicaciones)
  {
    if id !in db.casos {
      return Err(NotFound);
    }
    ArchiveOnlyChangesStatus(id, statusEntryId, db.casos[id], usuarioId, usuarioNombre, now);
    var updated := Update(db, id, Archive, usuarioId, usuarioNombre, statusEntryId, statusEntryId, now);
    r := Ok(());
  }

  // ---------------------------------------------------------------- follow-up entries

  /** The fields of a follow-up request (`AddSeguimientoDto`). */
  datatype SeguimientoInput = SeguimientoInput(
    comentario: string,
    accion: string,
    esVisible: Option<bool>,
    archivosIds: Option<seq<string>>)

  function FollowUpEntry(entryId: string, casoId: string, input: SeguimientoInput,
                         usuarioId: Option<string>, usuarioNombre: Option<string>, now: Instant)
    : (e: Seguimiento)
    ensures e.id == entryId && e.casoId == casoId
    ensures e.accion == input.accion && e.comentario == input.comentario
    ensures e.esVisible <==> input.esVisible != Some(false)
    ensures !Truthy(usuarioNombre) ==> e.usuarioNombre == "Sistema"
    ensures Truthy(usuarioNombre) ==> e.usuarioNombre == usuarioNombre.value
    ensures e.usuarioId.Some? <==> Truthy(usuarioId)
    ensures Truthy(usuarioId) ==> e.usuarioId == usuarioId
    ensures e.fecha == now
    ensures e.estadoAnterior.None? && e.estadoNuevo.None?
  {
    Seguimiento(entryId, casoId, if Truthy(usuarioId) then usuarioId else None,
      OrElse(usuarioNombre, "Sistema"), input.accion, input.comentario, None, None,
      input.esVisible.GetOr(true), now)
  }

  /** `archivo.updateMany({ where: { id: { in: ids }, casoId }, data: { seguimientoId } })`. */
  function Reparent(archivos: map<string, Archivo>, ids: seq<string>, casoId: string, entryId: string)
    : (r: map<string, Archivo>)
    ensures r.Keys == archivos.Keys
    ensures forall k :: k in archivos ==>
      if k in ids && archivos[k].casoId == Some(casoId)
      then r[k] == archivos[k].(seguimientoId := Some(entryId))
      else r[k] == archivos[k]
  {
    map k | k in archivos ::
      if k in ids && archivos[k].casoId == Some(casoId) then archivos[k].(seguimientoId := Some(entryId))
      else archivos[k]
  }

  /** A file of another case is never claimed, whatever ids the request lists;
      an empty list claims nothing. */
  lemma ReparentRespectsCase(archivos: map<string, Archivo>, ids: seq<string>, casoId: string, entryId: string)
    ensures forall k :: k in archivos && archivos[k].casoId != Some(casoId) ==>
      Reparent(archivos, ids, casoId, entryId)[k] == archivos[k]
    ensures Reparent(archivos, [], casoId, entryId) == archivos
  {
  }

  /** `addSeguimiento(casoId, dto, usuarioId, usuarioNombre)`. */
  method AddSeguimiento(db: Db, casoId: string, input: SeguimientoInput,
                        usuarioId: Option<string>, usuarioNombre: Option<string>, entryId: string, now: Instant)
    returns (r: Result<Seguimiento>)
    requires db.Valid()
    requires |input.comentario| >= 10
    modifies db
    ensures db.Valid()
    ensures casoId !in old(db.casos) ==> r == Err(NotFound) && unchanged(db)
    ensures casoId in old(db.casos) ==>
      && r == Ok(FollowUpEntry(entryId, casoId, input, usuarioId, usuarioNombre, now))
      && db.seguimientos == old(db.seguimientos) + [r.value]
      && db.archivos == (if input.archivosIds.Some? && |input.archivosIds.value| > 0
                         then Reparent(old(db.archivos), input.archivosIds.value, casoId, entryId)
                         else old(db.archivos))
    ensures unchanged(db`casos, db`users, db`roles, db`sedes, db`dependencias, db`publicaciones)
  {
    if casoId !in db.casos {
      return Err(NotFound);
    }
    var entry := FollowUpEntry(entryId, casoId, input, usuarioId, usuarioNombre, now);
    AppendEntries(db, [entry]);
    if input.archivosIds.Some? && |input.archivosIds.value| > 0 {
      db.archivos := Reparent(db.archivos, input.archivosIds.value, casoId, entryId);
    }
    r := Ok(entry);
  }

  // ---------------------------------------------------------------- certificate mail

  /** What `mailService.enviarConstancia` is asked to send. */
  datatype ConstanciaMail = ConstanciaMail(correo: string, nombreCompleto: string, codigo: string)

  /** `enviarConstanciaPorCorreo(casoId, pdf)`: the case must exist and have a
      complainant with an address who authorised mail; `delivered` is the
      outcome of the mail transport, whose failure propagates. */
  function EnviarConstancia(casos: map<string, Caso>, casoId: string, delivered: bool): (r: Result<ConstanciaMail>)
    ensures r == Err(NotFound) <==> casoId !in casos
    ensures r == Err(BadRequest) <==>
      casoId in casos && (casos[casoId].reclamante.None?
        || casos[casoId].reclamante.value.correo == ""
        || !casos[casoId].reclamante.value.autorizacionCorreo)
    ensures r.Ok? ==> delivered && r.value.correo == casos[casoId].reclamante.value.correo
                      && r.value.codigo == casos[casoId].codigo
    ensures r == Err(MailFailed) <==>
      && casoId in casos && casos[casoId].reclamante.Some?
      && casos[casoId].reclamante.value.correo != ""
      && casos[casoId].reclamante.value.autorizacionCorreo && !delivered
  {
    if casoId !in casos then Err(NotFound)
    else
      var caso := casos[casoId];
      if caso.reclamante.None? then Err(BadRequest)
      else
        var rec := caso.reclamante.value;
        if rec.correo == "" then Err(BadRequest)
        else if !rec.autorizacionCorreo then Err(BadRequest)
        else if !delivered then Err(MailFailed)
        else Ok(ConstanciaMail(rec.correo, rec.nombres + " " + rec.apellidoPaterno + " " + rec.apellidoMaterno, caso.codigo))
  }
}
