/** The rows of the relational store the services share, and the store itself:
    one class whose fields are the tables. Ids are the map keys (database
    generated uuids, passed in by callers); the tracking ledger and the
    publications are sequences because their order matters. */
module Schema {
  import opened Common

  // ---------------------------------------------------------------- cases

  datatype CaseType = RECLAMO | QUEJA | DENUNCIA

  datatype Priority = BAJA | MEDIA | ALTA | URGENTE

  datatype Estado = PENDIENTE | EN_REVISION | EN_PROCESO | RESUELTO | ARCHIVADO | RECHAZADO

  /** The complainant profile; `details` stands for the remaining fixed-shape
      fields (document, phone, academic and employment data). */
  datatype Reclamante = Reclamante(
    nombres: string,
    apellidoPaterno: string,
    apellidoMaterno: string,
    correo: string,
    autorizacionCorreo: bool,
    details: map<string, string>)

  /** The respondent profile. */
  datatype Reclamado = Reclamado(
    nombres: string,
    apellidoPaterno: string,
    apellidoMaterno: string,
    details: map<string, string>)

  datatype Caso = Caso(
    codigo: string,
    tipo: CaseType,
    prioridad: Priority,
    descripcionHechos: string,
    derechosAfectados: string,
    fechaCreacion: Instant,
    fechaLimite: Instant,
    esAnonimo: bool,
    requiereMediacion: bool,
    esConfidencial: bool,
    etiquetas: seq<string>,
    estado: Estado,
    asignadoA: Option<string>,
    asignadoNombre: Option<string>,
    resolucion: Option<string>,
    recomendaciones: Option<string>,
    fechaResolucion: Option<Instant>,
    reclamante: Option<Reclamante>,
    reclamado: Option<Reclamado>)

  /** One entry of the tracking ledger of a case. */
  datatype Seguimiento = Seguimiento(
    id: string,
    casoId: string,
    usuarioId: Option<string>,
    usuarioNombre: string,
    accion: string,
    comentario: string,
    estadoAnterior: Option<Estado>,
    estadoNuevo: Option<Estado>,
    esVisible: bool,
    fecha: Instant)

  /** An uploaded file; files of publications belong to no case. */
  datatype Archivo = Archivo(
    casoId: Option<string>,
    seguimientoId: Option<string>,
    nombre: string,
    url: string,
    tipo: string,
    tamano: int,
    categoria: string)

  // ---------------------------------------------------------------- users and roles

  datatype Profile = Profile(
    phone: Option<string>,
    avatar: Option<string>,
    fechaNacimiento: Option<string>,
    direccion: Option<string>,
    cargo: Option<string>,
    sedeId: Option<string>,
    dependenciaId: Option<string>)

  /** A user row. `password` holds the bcrypt hash; `status` is the name of the
      status enum value ("ACTIVE", ...). */
  datatype User = User(
    email: string,
    password: string,
    name: string,
    roleId: string,
    status: string,
    tipoDocumento: Option<string>,
    numeroDocumento: Option<string>,
    profile: Profile,
    lastLogin: Option<Instant>,
    resetPasswordToken: Option<string>,
    resetPasswordExpires: Option<Instant>)

  type Permissions = map<string, seq<string>>

  datatype Role = Role(
    name: string,
    description: Option<string>,
    permissions: Permissions,
    isSystem: bool,
    usersCount: int)

  // ---------------------------------------------------------------- sites

  datatype Sede = Sede(
    nombre: string,
    direccion: Option<string>,
    telefono: Option<string>,
    email: Option<string>,
    activo: bool)

  datatype Dependencia = Dependencia(
    nombre: string,
    descripcion: Option<string>,
    jefe: Option<string>,
    sedeId: string,
    activo: bool)

  // ---------------------------------------------------------------- publications

  datatype TipoPublicacion = ANUNCIO | COMUNICADO | EVENTO | NOTICIA

  datatype Publicacion = Publicacion(
    id: string,
    titulo: string,
    descripcion: string,
    imagenUrl: Option<string>,
    documentoUrl: Option<string>,
    fechaExpiracion: Option<Instant>,
    prioridad: int,
    tipo: TipoPublicacion,
    creadoPor: string,
    activo: bool,
    fechaPublicacion: Instant)

  // ---------------------------------------------------------------- the store

  /** The due date of a case lies this many calendar days after its creation. */
  const DeadlineDays: int := 28

  /** Number of users whose role is `roleId`: `user.count({ where: { roleId } })`. */
  function CountUsersWithRole(users: map<string, User>, roleId: string): nat
  {
    |set id | id in users && users[id].roleId == roleId|
  }

  /** Number of cases assigned to `userId`: `caso.count({ where: { asignadoA } })`. */
  function CountAssigned(casos: map<string, Caso>, userId: string): nat
  {
    |set id | id in casos && casos[id].asignadoA == Some(userId)|
  }

  /** The code of every case. */
  function Codes(casos: map<string, Caso>): set<string> {
    set id | id in casos :: casos[id].codigo
  }

  class Db {
    var casos: map<string, Caso>
    var seguimientos: seq<Seguimiento>
    var archivos: map<string, Archivo>
    var users: map<string, User>
    var roles: map<string, Role>
    var sedes: map<string, Sede>
    var dependencias: map<string, Dependencia>
    var publicaciones: seq<Publicacion>

    /** `codigo` is a unique column. */
    predicate CodesUnique()
      reads this
    {
      forall a, b :: a in casos && b in casos && a != b ==> casos[a].codigo != casos[b].codigo
    }

    /** Every due date lies 28 days after the creation instant. */
    predicate DeadlinesHold()
      reads this
    {
      forall id :: id in casos ==>
        casos[id].fechaLimite == casos[id].fechaCreacion + DeadlineDays * SecondsPerDay
    }

    /** Every tracking entry belongs to a stored case (cases are never deleted). */
    predicate LedgerRefersToCases()
      reads this
    {
      forall i :: 0 <= i < |seguimientos| ==> seguimientos[i].casoId in casos
    }

    /** Every file recorded against a case names a stored case. */
    predicate FilesReferToCases()
      reads this
    {
      forall id :: id in archivos && archivos[id].casoId.Some? ==> archivos[id].casoId.value in casos
    }

    /** Every dependencia references an existing sede. */
    predicate DependenciasReferToSedes()
      reads this
    {
      forall id :: id in dependencias ==> dependencias[id].sedeId in sedes
    }

    /** Every user references an existing role. */
    predicate UsersReferToRoles()
      reads this
    {
      forall id :: id in users ==> users[id].roleId in roles
    }

    /** `email` is a unique column of users. */
    predicate EmailsUnique()
      reads this
    {
      forall a, b :: a in users && b in users && a != b ==> users[a].email != users[b].email
    }

    /** `name` is a unique column of roles. */
    predicate RoleNamesUnique()
      reads this
    {
      forall a, b :: a in roles && b in roles && a != b ==> roles[a].name != roles[b].name
    }

    /** No two users hold the same password-reset token. */
    predicate ResetTokensUnique()
      reads this
    {
      forall a, b :: a in users && b in users && a != b && users[a].resetPasswordToken.Some? ==>
        users[a].resetPasswordToken != users[b].resetPasswordToken
    }

    /** Publication ids identify rows. */
    predicate PublicacionIdsUnique()
      reads this
    {
      forall i, j :: 0 <= i < j < |publicaciones| ==> publicaciones[i].id != publicaciones[j].id
    }

    predicate Valid()
      reads this
    {
      && CodesUnique()
      && DeadlinesHold()
      && LedgerRefersToCases()
      && FilesReferToCases()
      && DependenciasReferToSedes()
      && UsersReferToRoles()
      && EmailsUnique()
      && RoleNamesUnique()
      && ResetTokensUnique()
      && PublicacionIdsUnique()
    }

    constructor ()
      ensures Valid()
      ensures casos == map[] && seguimientos == [] && archivos == map[]
      ensures users == map[] && roles == map[] && sedes == map[]
      ensures dependencias == map[] && publicaciones == []
    {
      casos := map[];
      seguimientos := [];
      archivos := map[];
      users := map[];
      roles := map[];
      sedes := map[];
      dependencias := map[];
      publicaciones := [];
    }
  }
}
