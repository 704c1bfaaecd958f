/** The file records of `ArchivosService`: uploads attached to a case, the
    decision to mail a registration certificate, removal, the stored-name
    lookup, and the upload validators. The disk itself is not modelled: an
    upload arrives as its multer description and the existence of a stored
    file is a parameter. */
module Archivos {
  import opened Common
  import opened Schema
  import opened CaseCodes
  import opened Casos

  /** What multer hands over for one upload. */
  datatype UploadedFile = UploadedFile(originalname: string, filename: string, mimetype: string, size: nat)

  const DefaultCategoria: string := "PRUEBA_DOCUMENTAL"
  const UploadsUrl: string := "/uploads/"

  /** The row `create` inserts. */
  function NewArchivo(casoId: string, file: UploadedFile, categoria: Option<string>, seguimientoId: Option<string>)
    : (a: Archivo)
    ensures a.casoId == Some(casoId) && a.seguimientoId == seguimientoId
    ensures a.nombre == file.originalname && a.tipo == file.mimetype && a.tamano == file.size
    ensures a.url == UploadsUrl + file.filename
    ensures !Truthy(categoria) ==> a.categoria == DefaultCategoria
    ensures Truthy(categoria) ==> a.categoria == categoria.value
  {
    Archivo(Some(casoId), seguimientoId, file.originalname, UploadsUrl + file.filename,
      file.mimetype, file.size, OrElse(categoria, DefaultCategoria))
  }

  /** A PDF whose original name carries the case code, or starts with the name
      of a case type, is the case's registration certificate. */
  predicate IsConstancia(file: UploadedFile, codigo: string) {
    && file.mimetype == "application/pdf"
    && (|| Contains(file.originalname, codigo)
        || StartsWith(file.originalname, "RECLAMO-")
        || StartsWith(file.originalname, "QUEJA-")
        || StartsWith(file.originalname, "DENUNCIA-"))
  }

  /** A PDF whose name embeds the case code anywhere is a certificate. */
  lemma ConstanciaByCode(file: UploadedFile, codigo: string, before: string, after: string)
    requires file.mimetype == "application/pdf"
    requires file.originalname == before + codigo + after
    ensures IsConstancia(file, codigo)
  {
    var s := file.originalname;
    assert s[|before|..|before| + |codigo|] == codigo;
    ContainsAt(s, codigo, |before|);
  }

  /** The certificate is mailed only to a complainant with an address who
      authorised mail. */
  function CertificateMail(caso: Caso, file: UploadedFile): (m: Option<ConstanciaMail>)
    ensures m.Some? <==>
      IsConstancia(file, caso.codigo) && caso.reclamante.Some?
      && caso.reclamante.value.correo != "" && caso.reclamante.value.autorizacionCorreo
    ensures m.Some? ==> m.value.correo == caso.reclamante.value.correo && m.value.codigo == caso.codigo
  {
    if IsConstancia(file, caso.codigo) && caso.reclamante.Some?
       && caso.reclamante.value.correo != "" && caso.reclamante.value.autorizacionCorreo
    then
      var rec := caso.reclamante.value;
      Some(ConstanciaMail(rec.correo, rec.nombres + " " + rec.apellidoPaterno + " " + rec.apellidoMaterno, caso.codigo))
    else None
  }

  /** The outcome of an upload: the stored row and the certificate mail that
      was attempted, if any. */
  datatype Upload = Upload(archivo: Archivo, mailAttempted: Option<ConstanciaMail>)

  /** `create(casoId, file, categoria, seguimientoId)`. A failed delivery of
      the certificate mail is caught and logged, so the outcome does not
      depend on the mail transport, which is not modelled. */
  method Create(db: Db, id: string, casoId: string, file: UploadedFile, categoria: Option<string>,
                seguimientoId: Option<string>)
    returns (r: Result<Upload>)
    requires db.Valid()
    requires id !in db.archivos
    modifies db
    ensures db.Valid()
    ensures casoId !in old(db.casos) ==> r == Err(NotFound) && unchanged(db)
    ensures casoId in old(db.casos) ==>
      && r == Ok(Upload(NewArchivo(casoId, file, categoria, seguimientoId),
                        CertificateMail(old(db.casos)[casoId], file)))
      && db.archivos == old(db.archivos)[id := r.value.archivo]
    ensures unchanged(db`casos, db`seguimientos, db`users, db`roles, db`sedes, db`dependencias, db`publicaciones)
  {
    if casoId !in db.casos {
      return Err(NotFound);
    }
    var caso := db.casos[casoId];
    var archivo := NewArchivo(casoId, file, categoria, seguimientoId);
    db.archivos := db.archivos[id := archivo];
    r := Ok(Upload(archivo, CertificateMail(caso, file)));
  }

  /** `archivo.url.split('/').pop()`. */
  function StoredName(archivo: Archivo): (name: string)
    ensures '/' !in name && |name| <= |archivo.url|
  {
    LastSegment(archivo.url)
  }

  /** The stored name of an uploaded file is the multer file name it was saved under. */
  lemma StoredNameOfUpload(casoId: string, file: UploadedFile, categoria: Option<string>, seguimientoId: Option<string>)
    requires '/' !in file.filename
    ensures StoredName(NewArchivo(casoId, file, categoria, seguimientoId)) == file.filename
  {
    LastSegmentOfPath(UploadsUrl, file.filename);
  }

  /** `getFilePath(id)`: `onDisk` says which stored names exist in the upload directory. */
  function GetFilePath(archivos: map<string, Archivo>, id: string, onDisk: string -> bool): (r: Result<string>)
    ensures id !in archivos ==> r == Err(NotFound)
    ensures id in archivos && StoredName(archivos[id]) == "" ==> r == Err(NotFound)
    ensures r.Ok? <==> id in archivos && StoredName(archivos[id]) != "" && onDisk(StoredName(archivos[id]))
    ensures r.Ok? ==> r.value == "uploads/" + StoredName(archivos[id])
  {
    if id !in archivos then Err(NotFound)
    else
      var name := StoredName(archivos[id]);
      if name == "" then Err(NotFound)
      else if !onDisk(name) then Err(NotFound)
      else Ok("uploads/" + name)
  }

  /** `remove(id)`: the row goes even if the disk delete fails. */
  method Remove(db: Db, id: string) returns (r: Result<()>)
    requires db.Valid()
    modifies db
    ensures db.Valid()
    ensures id !in old(db.archivos) ==> r == Err(NotFound) && unchanged(db)
    ensures id in old(db.archivos) && StoredName(old(db.archivos)[id]) == "" ==> r == Err(NotFound) && unchanged(db)
    ensures id in old(db.archivos) && StoredName(old(db.archivos)[id]) != "" ==>
      r == Ok(()) && db.archivos == old(db.archivos) - {id}
    ensures unchanged(db`casos, db`seguimientos, db`users, db`roles, db`sedes, db`dependencias, db`publicaciones)
  {
    if id !in db.archivos {
      return Err(NotFound);
    }
    if StoredName(db.archivos[id]) == "" {
      return Err(NotFound);
    }
    db.archivos := db.archivos - {id};
    r := Ok(());
  }

  /** The mime types an upload may have. */
  const AllowedTypes: seq<string> := [
    "application/pdf",
    "image/jpeg",
    "image/jpg",
    "image/png",
    "application/msword",
    "application/vnd.openxmlformats-officedocument.wordprocessingml.document",
    "application/vnd.ms-excel",
    "application/vnd.openxmlformats-officedocument.spreadsheetml.sheet"]

  function ValidateFileType(mimetype: string): (ok: bool)
    ensures ok <==> exists i :: 0 <= i < |AllowedTypes| && AllowedTypes[i] == mimetype
  {
    mimetype in AllowedTypes
  }

  /** Every certificate has an accepted type, and so do the images; other
      types such as plain text are refused. */
  lemma FileTypeExamples(file: UploadedFile, codigo: string)
    ensures IsConstancia(file, codigo) ==> ValidateFileType(file.mimetype)
    ensures ValidateFileType("image/png") && ValidateFileType("image/jpg")
    ensures !ValidateFileType("text/plain") && !ValidateFileType("application/zip")
  {
    assert AllowedTypes[0] == "application/pdf";
    assert AllowedTypes[2] == "image/jpg";
    assert AllowedTypes[3] == "image/png";
  }

  /** The decimal digits `parseInt` reads from the front of a string. */
  function LeadingDigits(s: string): (d: string)
    ensures AllDigits(d) && |d| <= |s| && d == s[..|d|]
    ensures |d| < |s| ==> !IsDigit(s[|d|])
  {
    if |s| == 0 || !IsDigit(s[0]) then "" else [s[0]] + LeadingDigits(s[1..])
  }

  predicate IsHexDigit(c: char) {
    IsDigit(c) || 'a' <= c <= 'f' || 'A' <= c <= 'F'
  }

  function HexValue(c: char): (v: nat)
    requires IsHexDigit(c)
    ensures v < 16
    ensures IsDigit(c) ==> v == DigitValue(c)
  {
    if IsDigit(c) then DigitValue(c)
    else if 'a' <= c <= 'f' then c as int - 'a' as int + 10
    else c as int - 'A' as int + 10
  }

  predicate AllHexDigits(s: string) {
    forall i :: 0 <= i < |s| ==> IsHexDigit(s[i])
  }

  /** The hexadecimal digits `parseInt` reads after a "0x" prefix. */
  function LeadingHexDigits(s: string): (d: string)
    ensures AllHexDigits(d) && |d| <= |s| && d == s[..|d|]
    ensures |d| < |s| ==> !IsHexDigit(s[|d|])
  {
    if |s| == 0 || !IsHexDigit(s[0]) then "" else [s[0]] + LeadingHexDigits(s[1..])
  }

  /** The value of a string of hexadecimal digits, read left to right. */
  function ParseHex(s: string): nat
    requires AllHexDigits(s)
    decreases |s|
  {
    if |s| == 0 then 0 else ParseHex(s[..|s| - 1]) * 16 + HexValue(s[|s| - 1])
  }

  /** Without a radix, `parseInt` reads a string that starts with "0x" or
      "0X" in base 16. */
  predicate HasHexPrefix(s: string) {
    |s| >= 2 && s[0] == '0' && (s[1] == 'x' || s[1] == 'X')
  }

  /** The digits a radix-less `parseInt` reads: the hexadecimal digits after
      the prefix, or the leading decimal digits. */
  function SettingDigits(s: string): (d: string)
    ensures HasHexPrefix(s) ==> d == LeadingHexDigits(s[2..])
    ensures !HasHexPrefix(s) ==> d == LeadingDigits(s)
  {
    if HasHexPrefix(s) then LeadingHexDigits(s[2..]) else LeadingDigits(s)
  }

  /** A radix-less `parseInt(s)`: None stands for NaN, which no digit read
      gives. */
  function ParseIntNoRadix(s: string): (n: Option<nat>)
    ensures n.None? <==> SettingDigits(s) == ""
  {
    var d := SettingDigits(s);
    if d == "" then None
    else if HasHexPrefix(s) then Some(ParseHex(d))
    else Some(ParseDigits(d))
  }

  const DefaultMaxFileSize: nat := 10485760

  /** `validateFileSize(size)`: `maxSetting` is the `MAX_FILE_SIZE` setting. A
      setting from which `parseInt` reads no digit parses to NaN, and every
      size compares false against NaN. */
  function ValidateFileSize(size: nat, maxSetting: Option<string>): (ok: bool)
    ensures !Truthy(maxSetting) ==> (ok <==> size <= DefaultMaxFileSize)
    ensures Truthy(maxSetting) && SettingDigits(maxSetting.value) == "" ==> !ok
    ensures Truthy(maxSetting) && !HasHexPrefix(maxSetting.value) && LeadingDigits(maxSetting.value) != "" ==>
      (ok <==> size <= ParseDigits(LeadingDigits(maxSetting.value)))
    ensures Truthy(maxSetting) && HasHexPrefix(maxSetting.value) && SettingDigits(maxSetting.value) != "" ==>
      (ok <==> size <= ParseHex(LeadingHexDigits(maxSetting.value[2..])))
  {
    var setting := OrElse(maxSetting, "10485760");
    assert !Truthy(maxSetting) ==> ParseIntNoRadix(setting) == Some(DefaultMaxFileSize) by {
      if !Truthy(maxSetting) { ParseDefaultMaxFileSize(); }
    }
    match ParseIntNoRadix(setting)
    case None => false
    case Some(limit) => size <= limit
  }

  /** A setting written in decimal digits is read whole, in base 10. */
  lemma {:induction false} DecimalSettingReadWhole(size: nat, v: string)
    requires |v| > 0 && AllDigits(v)
    ensures ValidateFileSize(size, Some(v)) <==> size <= ParseDigits(v)
  {
    assert !HasHexPrefix(v) by {
      if |v| >= 2 { assert IsDigit(v[1]); }
    }
    LeadingDigitsOfDigits(v);
  }

  /** "0x100000" is 1 MiB: the source accepts exactly the sizes up to
      1048576, where a decimal-only reading would give a limit of 0. */
  lemma HexSettingExample()
    ensures LeadingDigits("0x100000") == "0"
    ensures ValidateFileSize(1048576, Some("0x100000"))
    ensures !ValidateFileSize(1048577, Some("0x100000"))
  {
    var v := "0x100000";
    assert HasHexPrefix(v);
    var d1 := "1";
    assert ParseHex(d1) == 1;
    ParseHexShift(d1);
    var d2 := d1 + "0";
    ParseHexShift(d2);
    var d3 := d2 + "0";
    ParseHexShift(d3);
    var d4 := d3 + "0";
    ParseHexShift(d4);
    var d5 := d4 + "0";
    ParseHexShift(d5);
    var d6 := d5 + "0";
    assert ParseHex(d6) == 1048576;
    assert v[2..] == d6;
    LeadingHexDigitsOfHex(d6);
  }

  /** Appending a zero digit multiplies the value by sixteen. */
  lemma ParseHexShift(s: string)
    requires AllHexDigits(s)
    ensures AllHexDigits(s + "0") && ParseHex(s + "0") == 16 * ParseHex(s)
  {
    var t := s + "0";
    assert t[..|t| - 1] == s;
  }

  /** On a string of hexadecimal digits `parseInt` reads the whole string. */
  lemma {:induction false} LeadingHexDigitsOfHex(s: string)
    requires AllHexDigits(s)
    ensures LeadingHexDigits(s) == s
    decreases |s|
  {
    if |s| > 0 {
      assert AllHexDigits(s[1..]) by {
        forall k | 0 <= k < |s[1..]| ensures IsHexDigit(s[1..][k]) { assert s[1..][k] == s[k + 1]; }
      }
      LeadingHexDigitsOfHex(s[1..]);
      assert [s[0]] + s[1..] == s;
    }
  }

  /** On a string of digits `parseInt` reads the whole string. */
  lemma {:induction false} LeadingDigitsOfDigits(s: string)
    requires AllDigits(s)
    ensures LeadingDigits(s) == s
    decreases |s|
  {
    if |s| > 0 {
      assert AllDigits(s[1..]) by {
        forall k | 0 <= k < |s[1..]| ensures IsDigit(s[1..][k]) { assert s[1..][k] == s[k + 1]; }
      }
      LeadingDigitsOfDigits(s[1..]);
      assert [s[0]] + s[1..] == s;
    }
  }

  /** The decimal text of the default limit. */
  lemma DefaultMaxFileSizeText()
    ensures NatToString(DefaultMaxFileSize) == "10485760"
  {
    assert NatToString(10485) == "10485" by {
      assert NatToString(1) == "1";
      assert NatToString(10) == "10";
      assert NatToString(104) == "104";
      assert NatToString(1048) == "1048";
    }
    assert NatToString(104857) == "104857";
    assert NatToString(1048576) == "1048576";
  }

  lemma ParseDefaultMaxFileSize()
    ensures LeadingDigits("10485760") == "10485760"
    ensures ParseDigits("10485760") == DefaultMaxFileSize
  {
    DefaultMaxFileSizeText();
    ParseNatToString(DefaultMaxFileSize);
    LeadingDigitsOfDigits(NatToString(DefaultMaxFileSize));
  }
}
