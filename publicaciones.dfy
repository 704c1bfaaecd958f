/** `PublicacionesService`: announcements shown on the public board. Lists
    come back ordered by priority, highest first, then by publication time,
    newest first; the public list keeps only the active, unexpired ones. */
module Publicaciones {
  import opened Common
  import opened Schema

  /** The fields of `CreatePublicacionDto`; the expiry date arrives parsed,
      `None` when absent or empty. */
  datatype PublicacionInput = PublicacionInput(
    titulo: string,
    descripcion: string,
    imagenUrl: Option<string>,
    documentoUrl: Option<string>,
    fechaExpiracion: Option<Instant>,
    prioridad: Option<int>,
    tipo: Option<TipoPublicacion>)

  /** The fields of `UpdatePublicacionDto`; `None` leaves a column as it is. */
  datatype PublicacionChanges = PublicacionChanges(
    titulo: Option<string>,
    descripcion: Option<string>,
    imagenUrl: Option<string>,
    documentoUrl: Option<string>,
    fechaExpiracion: Option<Instant>,
    prioridad: Option<int>,
    tipo: Option<TipoPublicacion>,
    activo: Option<bool>)

  const DefaultPrioridad: int := 0
  const DefaultTipo: TipoPublicacion := ANUNCIO

  /** The row `create` inserts for the caller `usuarioId` at `now`; a new
      publication is active. */
  function NewPublicacion(id: string, input: PublicacionInput, usuarioId: string, now: Instant): (p: Publicacion)
    ensures p.id == id && p.titulo == input.titulo && p.descripcion == input.descripcion
    ensures p.fechaExpiracion == input.fechaExpiracion
    ensures p.prioridad == input.prioridad.GetOr(DefaultPrioridad)
    ensures p.tipo == input.tipo.GetOr(DefaultTipo)
    ensures p.creadoPor == usuarioId && p.activo && p.fechaPublicacion == now
  {
    Publicacion(id, input.titulo, input.descripcion, input.imagenUrl, input.documentoUrl, input.fechaExpiracion,
      input.prioridad.GetOr(DefaultPrioridad), input.tipo.GetOr(DefaultTipo), usuarioId, true, now)
  }

  predicate HasId(pubs: seq<Publicacion>, id: string) {
    exists i :: 0 <= i < |pubs| && pubs[i].id == id
  }

  predicate IdsUnique(pubs: seq<Publicacion>) {
    forall a, b :: 0 <= a < b < |pubs| ==> pubs[a].id != pubs[b].id
  }

  /** The position of the first row with that id, the row `findUnique` reads. */
  function IndexOf(pubs: seq<Publicacion>, id: string): (i: int)
    ensures -1 <= i < |pubs|
    ensures HasId(pubs, id) <==> 0 <= i < |pubs|
    ensures 0 <= i < |pubs| ==> pubs[i].id == id && forall k :: 0 <= k < i ==> pubs[k].id != id
  {
    if pubs == [] then -1
    else if pubs[0].id == id then 0
    else
      var k := IndexOf(pubs[1..], id);
      if k < 0 then -1 else k + 1
  }

  /** `create(dto, usuarioId)`; `id` is the generated key. */
  method Create(db: Db, id: string, input: PublicacionInput, usuarioId: string, now: Instant)
    returns (p: Publicacion)
    requires db.Valid()
    requires !HasId(db.publicaciones, id)
    modifies db
    ensures db.Valid()
    ensures p == NewPublicacion(id, input, usuarioId, now)
    ensures db.publicaciones == old(db.publicaciones) + [p]
    ensures unchanged(db`casos, db`seguimientos, db`archivos, db`users, db`roles, db`sedes, db`dependencias)
  {
    p := NewPublicacion(id, input, usuarioId, now);
    db.publicaciones := db.publicaciones + [p];
  }

  // ---------------------------------------------------------------- ordering

  /** `a` may be listed before `b`: `orderBy [{ prioridad: 'desc' }, { fechaPublicacion: 'desc' }]`. */
  predicate Before(a: Publicacion, b: Publicacion) {
    a.prioridad > b.prioridad || (a.prioridad == b.prioridad && a.fechaPublicacion >= b.fechaPublicacion)
  }

  predicate Ordered(s: seq<Publicacion>) {
    forall i, j :: 0 <= i < j < |s| ==> Before(s[i], s[j])
  }

  /** Inserts `p` into an ordered list ahead of the first row it may precede. */
  function Insert(p: Publicacion, s: seq<Publicacion>): (r: seq<Publicacion>)
    requires Ordered(s)
    ensures Ordered(r)
    ensures multiset(r) == multiset(s) + multiset{p}
  {
    if s == [] then [p]
    else if Before(p, s[0]) then [p] + s
    else
      var rest := Insert(p, s[1..]);
      assert s == [s[0]] + s[1..];
      InsertHead(s[0], p, s[1..], rest);
      [s[0]] + rest
  }

  /** The head of an ordered list may precede everything inserted behind it. */
  lemma InsertHead(h: Publicacion, p: Publicacion, tail: seq<Publicacion>, rest: seq<Publicacion>)
    requires Ordered([h] + tail) && !Before(p, h)
    requires Ordered(rest) && multiset(rest) == multiset(tail) + multiset{p}
    ensures Ordered([h] + rest)
  {
    forall j | 0 <= j < |rest|
      ensures Before(h, rest[j])
    {
      assert rest[j] in multiset(rest);
      if rest[j] != p {
        assert rest[j] in multiset(tail);
        var k :| 0 <= k < |tail| && tail[k] == rest[j];
        assert ([h] + tail)[0] == h && ([h] + tail)[k + 1] == tail[k];
        assert Before(([h] + tail)[0], ([h] + tail)[k + 1]);
      }
    }
  }

  /** The rows in list order: the database sort, which promises an order
      and no particular order among rows that tie. */
  function Sort(s: seq<Publicacion>): (r: seq<Publicacion>)
    ensures Ordered(r)
    ensures multiset(r) == multiset(s)
  {
    if s == [] then []
    else
      assert s == [s[0]] + s[1..];
      Insert(s[0], Sort(s[1..]))
  }

  /** `findAll()`. */
  function FindAll(pubs: seq<Publicacion>): (r: seq<Publicacion>)
    ensures Ordered(r) && multiset(r) == multiset(pubs)
  {
    Sort(pubs)
  }

  /** Shown to the public at `now`: active, and with no expiry or one not yet past. */
  predicate IsActiva(p: Publicacion, now: Instant) {
    p.activo && (p.fechaExpiracion.None? || p.fechaExpiracion.value >= now)
  }

  function Activas(s: seq<Publicacion>, now: Instant): (r: seq<Publicacion>)
    ensures forall x :: x in r <==> x in s && IsActiva(x, now)
    ensures multiset(r) <= multiset(s)
  {
    if s == [] then []
    else
      assert s == [s[0]] + s[1..];
      if IsActiva(s[0], now) then [s[0]] + Activas(s[1..], now) else Activas(s[1..], now)
  }

  /** `findActivas()` at `now`. */
  function FindActivas(pubs: seq<Publicacion>, now: Instant): (r: seq<Publicacion>)
    ensures Ordered(r)
    ensures multiset(r) == multiset(Activas(pubs, now))
    ensures forall x :: x in r <==> x in pubs && IsActiva(x, now)
  {
    var r := Sort(Activas(pubs, now));
    assert forall x :: x in r <==> x in multiset(r);
    r
  }

  // ---------------------------------------------------------------- single rows

  /** `findOne(id)`. */
  function FindOne(pubs: seq<Publicacion>, id: string): (r: Result<Publicacion>)
    ensures r.Ok? <==> HasId(pubs, id)
    ensures r.Err? ==> r.error == NotFound
    ensures r.Ok? ==> r.value in pubs && r.value.id == id
  {
    var i := IndexOf(pubs, id);
    if 0 <= i then Ok(pubs[i]) else Err(NotFound)
  }

  function ApplyChanges(p: Publicacion, c: PublicacionChanges): (r: Publicacion)
    ensures r.id == p.id && r.creadoPor == p.creadoPor && r.fechaPublicacion == p.fechaPublicacion
    ensures c.activo.Some? ==> r.activo == c.activo.value
    ensures c.activo.None? ==> r.activo == p.activo
  {
    Publicacion(p.id, c.titulo.GetOr(p.titulo), c.descripcion.GetOr(p.descripcion),
      if c.imagenUrl.Some? then c.imagenUrl else p.imagenUrl,
      if c.documentoUrl.Some? then c.documentoUrl else p.documentoUrl,
      if c.fechaExpiracion.Some? then c.fechaExpiracion else p.fechaExpiracion,
      c.prioridad.GetOr(p.prioridad), c.tipo.GetOr(p.tipo), p.creadoPor, c.activo.GetOr(p.activo),
      p.fechaPublicacion)
  }

  /** Flips `activo` and nothing else. */
  function Toggle(p: Publicacion): (r: Publicacion)
    ensures r.activo == !p.activo
    ensures r.(activo := p.activo) == p
  {
    p.(activo := !p.activo)
  }

  /** Toggling twice restores the publication. */
  lemma ToggleTwice(p: Publicacion)
    ensures Toggle(Toggle(p)) == p
  {
  }

  /** `update(id, dto)`: the row with that id is rewritten in place. */
  method Update(db: Db, id: string, c: PublicacionChanges) returns (r: Result<Publicacion>)
    requires db.Valid()
    modifies db
    ensures db.Valid()
    ensures !HasId(old(db.publicaciones), id) ==> r == Err(NotFound) && unchanged(db)
    ensures HasId(old(db.publicaciones), id) ==>
      exists i :: 0 <= i < |old(db.publicaciones)| && old(db.publicaciones)[i].id == id
        && r == Ok(ApplyChanges(old(db.publicaciones)[i], c))
        && db.publicaciones == old(db.publicaciones)[i := r.value]
    ensures unchanged(db`casos, db`seguimientos, db`archivos, db`users, db`roles, db`sedes, db`dependencias)
  {
    var i := IndexOf(db.publicaciones, id);
    if i < 0 {
      return Err(NotFound);
    }
    var p := ApplyChanges(db.publicaciones[i], c);
    db.publicaciones := db.publicaciones[i := p];
    r := Ok(p);
  }

  /** `toggleActivo(id)`. */
  method ToggleActivo(db: Db, id: string) returns (r: Result<Publicacion>)
    requires db.Valid()
    modifies db
    ensures db.Valid()
    ensures !HasId(old(db.publicaciones), id) ==> r == Err(NotFound) && unchanged(db)
    ensures HasId(old(db.publicaciones), id) ==>
      exists i :: 0 <= i < |old(db.publicaciones)| && old(db.publicaciones)[i].id == id
        && r == Ok(Toggle(old(db.publicaciones)[i]))
        && db.publicaciones == old(db.publicaciones)[i := r.value]
    ensures unchanged(db`casos, db`seguimientos, db`archivos, db`users, db`roles, db`sedes, db`dependencias)
  {
    var i := IndexOf(db.publicaciones, id);
    if i < 0 {
      return Err(NotFound);
    }
    var p := Toggle(db.publicaciones[i]);
    db.publicaciones := db.publicaciones[i := p];
    r := Ok(p);
  }

  /** `remove(id)`: exactly the row with that id goes; the others keep their order. */
  method Remove(db: Db, id: string) returns (r: Result<()>)
    requires db.Valid()
    modifies db
    ensures db.Valid()
    ensures !HasId(old(db.publicaciones), id) ==> r == Err(NotFound) && unchanged(db)
    ensures HasId(old(db.publicaciones), id) ==>
      && r == Ok(())
      && (exists i :: 0 <= i < |old(db.publicaciones)| && old(db.publicaciones)[i].id == id
            && db.publicaciones == old(db.publicaciones)[..i] + old(db.publicaciones)[i + 1..])
      && (forall x :: x in db.publicaciones <==> x in old(db.publicaciones) && x.id != id)
    ensures unchanged(db`casos, db`seguimientos, db`archivos, db`users, db`roles, db`sedes, db`dependencias)
  {
    var i := IndexOf(db.publicaciones, id);
    if i < 0 {
      return Err(NotFound);
    }
    RemoveAt(db.publicaciones, i);
    db.publicaciones := db.publicaciones[..i] + db.publicaciones[i + 1..];
    r := Ok(());
  }

  /** With unique ids, cutting out the row at `i` removes exactly the rows
      carrying its id. */
  lemma RemoveAt(s: seq<Publicacion>, i: int)
    requires 0 <= i < |s|
    requires IdsUnique(s)
    ensures forall x :: x in s[..i] + s[i + 1..] <==> x in s && x.id != s[i].id
    ensures IdsUnique(s[..i] + s[i + 1..])
  {
    RemoveAtKeepsOthers(s, i);
    RemoveAtDropsId(s, i);
    RemoveAtKeepsIdsUnique(s, i);
  }

  /** Every row with another id stays. */
  lemma RemoveAtKeepsOthers(s: seq<Publicacion>, i: int)
    requires 0 <= i < |s|
    ensures forall x :: x in s && x.id != s[i].id ==> x in s[..i] + s[i + 1..]
  {
    var t := s[..i] + s[i + 1..];
    forall x | x in s && x.id != s[i].id
      ensures x in t
    {
      var k :| 0 <= k < |s| && s[k] == x;
      if k < i { assert t[k] == x; } else { assert t[k - 1] == x; }
    }
  }

  /** No row with the removed id stays. */
  lemma RemoveAtDropsId(s: seq<Publicacion>, i: int)
    requires 0 <= i < |s|
    requires IdsUnique(s)
    ensures forall x :: x in s[..i] + s[i + 1..] ==> x in s && x.id != s[i].id
  {
    var t := s[..i] + s[i + 1..];
    forall x | x in t
      ensures x in s && x.id != s[i].id
    {
      var k :| 0 <= k < |t| && t[k] == x;
      var k' := if k < i then k else k + 1;
      assert t[k] == s[k'];
    }
  }

  lemma RemoveAtKeepsIdsUnique(s: seq<Publicacion>, i: int)
    requires 0 <= i < |s|
    requires IdsUnique(s)
    ensures IdsUnique(s[..i] + s[i + 1..])
  {
    var t := s[..i] + s[i + 1..];
    forall a, b | 0 <= a < b < |t|
      ensures t[a].id != t[b].id
    {
      var a' := if a < i then a else a + 1;
      var b' := if b < i then b else b + 1;
      assert t[a] == s[a'] && t[b] == s[b'];
    }
  }
}
