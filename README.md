# Complaints book back end: a verified model of its services

This project models the services of a complaints, grievances and reports back end
(NestJS over a Prisma database). The core is the case lifecycle of `CasosService`:

- a case code `REC-2025-0001` per type and year;
- a deadline 28 days after registration;
- an append-only follow-up ledger (`seguimiento`);
- assignment, status changes and archiving;
- follow-ups that re-parent attachments;
- statistics with twelve monthly buckets;
- the guards on mailing a registration certificate.

Around the core sit the smaller services. Each is a table of records behind guard checks:

- file attachments, with the certificate detection and the upload validators;
- users, with their role counters;
- roles, campuses (`sedes`) and departments (`dependencias`);
- public announcements (`publicaciones`);
- authentication, with its password-reset token.

Every table lives in one `Schema.Db` object, and each service is a module of methods
that change it. `Db.Valid()` is the set of cross-table invariants every method keeps:

- case codes are unique;
- every deadline is 28 days after creation;
- every ledger entry and every case-bound file refers to a stored case;
- every department refers to a stored campus;
- every user refers to a stored role;
- emails, role names, reset tokens and announcement ids are unique.

Pure logic is written as functions:

- code generation and parsing;
- calendar buckets;
- the predicates on files;
- sorting and filtering of announcements.

The places where the services loop are methods with loop invariants:

- the month initialisation and counting of the monthly statistics;
- the sort that turns the month map into a list.

The clock, the upload directory, the mail transport, bcrypt, JWT and random tokens are
outside the model. They enter as parameters:

- `now`, the current year, or a calendar date;
- an `onDisk` predicate for the upload directory;
- a `delivered` flag for the mail transport;
- a `matches` function standing for `bcrypt.compare`;
- hashes and tokens as given strings.

The lifecycle methods model the code as written, including the three defects listed
under "## Findings". Each corrected definition sits beside its as-written member, with
its intended property proved.

## Model

| member | source | states |
|---|---|---|
| CaseCodes.NatToString | src/casos/casos.service.ts:53 | `secuencia.toString()` is a non-empty string of decimal digits |
| CaseCodes.ParseBound | src/casos/casos.service.ts:48 | `parseInt` of k digits is below 10^k |
| CaseCodes.ParseFront | src/casos/casos.service.ts:48 | a leading digit contributes its value times 10^(number of digits after it) |
| CaseCodes.ParseNatToString | src/casos/casos.service.ts:48-53 | parsing the decimal text of n gives back n |
| CaseCodes.NatToStringLength | src/casos/casos.service.ts:53 | a number below 10^k prints in at most k digits |
| CaseCodes.PadStart | src/casos/casos.service.ts:53 | `padStart(width, '0')` keeps the string as its suffix, pads with zeros only up to the width, and never truncates |
| CaseCodes.ParseLeadingZeros | src/casos/casos.service.ts:48 | leading zeros do not change the parsed value |
| CaseCodes.FormatSequence | src/casos/casos.service.ts:53 | the formatted sequence is at least 4 digits and ends with the number's own digits |
| CaseCodes.FormatSequenceRoundTrip | src/casos/casos.service.ts:48-53 | parsing a formatted sequence gives back the sequence |
| CaseCodes.FormatSequenceWidth | src/casos/casos.service.ts:53 | the sequence is exactly 4 characters iff it is at most 9999 |
| CaseCodes.Prefix | src/casos/casos.service.ts:22-26 | each case type maps to a 3-letter prefix |
| CaseCodes.CodePrefix | src/casos/casos.service.ts:35 | `{prefix}-{year}-` starts with the type prefix and ends with '-' |
| CaseCodes.TrailingDigits | src/casos/casos.service.ts:46 | the capture of `/(\d+)$/` is made of digits and is no longer than the code |
| CaseCodes.TrailingDigitsIsLongestSuffix | src/casos/casos.service.ts:46 | that capture is the longest digit suffix: it ends the code, and the character before it, if any, is not a digit |
| CaseCodes.TrailingDigitsAfter | src/casos/casos.service.ts:46 | after a prefix ending in a non-digit, the trailing digits are exactly the sequence part |
| CaseCodes.LexLeRefl | src/casos/casos.service.ts:38-40 | the string order of `orderBy codigo` is reflexive |
| CaseCodes.LexLeTotal | src/casos/casos.service.ts:38-40 | the string order is total |
| CaseCodes.LexLeAntisymmetric | src/casos/casos.service.ts:38-40 | the string order is antisymmetric |
| CaseCodes.LexLeTransitive | src/casos/casos.service.ts:38-40 | the string order is transitive |
| CaseCodes.LexLeSharedPrefix | src/casos/casos.service.ts:38-40 | a shared prefix does not change the order of two codes |
| CaseCodes.LexLeDigits | src/casos/casos.service.ts:38-48 | for digit strings of equal length, the string order agrees with the numeric order |
| CaseCodes.LastCodeExists | src/casos/casos.service.ts:32-41 | when some code has the prefix, a greatest one in string order exists |
| CaseCodes.LastCodeUnique | src/casos/casos.service.ts:32-41 | that greatest code is unique |
| CaseCodes.LastCode | src/casos/casos.service.ts:32-41 | `findFirst` with `startsWith` and `orderBy codigo desc` is None iff no code has the prefix, and otherwise the greatest such code |
| CaseCodes.SequenceAfter | src/casos/casos.service.ts:43-50 | the next sequence is 1 without a previous code, and otherwise the previous sequence plus 1 |
| CaseCodes.GenerarCodigo | src/casos/casos.service.ts:20-55 | the generated code equals the specification `GeneratedCode` of the stored codes, type and year |
| CaseCodes.GeneratedCodeLayout | src/casos/casos.service.ts:22-54 | the code is `{prefix}-{year}-` followed by the padded sequence of at least 4 digits |
| CaseCodes.Year2025Prefix | src/casos/casos.service.ts:22-35 | a complaint of 2025 gets the prefix "REC-2025-" |
| CaseCodes.FirstCodeOfYear | src/casos/casos.service.ts:43-54 | with no code of that prefix and year, the code ends in "0001" |
| CaseCodes.SequenceOfCode | src/casos/casos.service.ts:46-48 | the sequence read from a code is the value of its digits after the prefix |
| CaseCodes.LastCodeHasGreatestSequence | src/casos/casos.service.ts:32-48 | while all sequences have 4 digits, the greatest code in string order has the greatest sequence |
| CaseCodes.GeneratedCodeIsFresh | src/casos/casos.service.ts:20-55 | while all sequences have 4 digits, the new code differs from every stored code and exceeds every sequence of its prefix |
| CaseCodes.CodePrefixesDoNotNest | src/casos/casos.service.ts:32-41 | a code that starts with one `{prefix}-{year}-` cannot start with a different one, so the `startsWith` filters of two types or years never overlap |
| CaseCodes.OtherTypesUnaffected | src/casos/casos.service.ts:32-41 | adding a code never changes the code generated under a different prefix, whether another type or the same type in another year |
| CaseCodes.SingleCodeIsLast | src/casos/casos.service.ts:32-41 | the only code with a prefix is the one `findFirst` returns |
| CaseCodes.Parse0001 | src/casos/casos.service.ts:48 | "0001" parses to 1 |
| CaseCodes.Format0002 | src/casos/casos.service.ts:53 | sequence 2 is written "0002" |
| CaseCodes.FirstComplaintCode | src/casos/casos.service.ts:20-55 | the first complaint of 2025 gets "REC-2025-0001" |
| CaseCodes.FirstComplaintIsLast | src/casos/casos.service.ts:32-48 | for any type and year, with only the first code `{prefix}-{year}-0001` stored, it is the last code and its sequence is 1 |
| CaseCodes.ComplaintSequenceExample | src/casos/casos.service.ts:20-55 | for any type and year, the first two cases get `{prefix}-{year}-0001` and `{prefix}-{year}-0002` |
| CaseCodes.Parse9999 | src/casos/casos.service.ts:48 | "9999" parses to 9999 |
| CaseCodes.Format10000 | src/casos/casos.service.ts:53 | sequence 10000 is written "10000" and is not truncated |
| CaseCodes.OverflowTextOrder | src/casos/casos.service.ts:38-40 | after any common prefix, "…10000" sorts below "…9999" |
| CaseCodes.OverflowLastCode | src/casos/casos.service.ts:32-41 | with "…9999" and "…10000" stored under a prefix, `findFirst` returns "…9999" |
| CaseCodes.OverflowSequence | src/casos/casos.service.ts:43-50 | after "…9999" under a prefix ending in a non-digit, the next sequence is 10000 |
| CaseCodes.OverflowRepeatsCode | src/casos/casos.service.ts:20-55 | for any type and year, with `{prefix}-{year}-9999` and `{prefix}-{year}-10000` stored, the generated code is `{prefix}-{year}-10000` again, which is already stored |
| CaseCodes.MaxSequence | src/casos/casos.service.ts:43-50 | the numeric maximum of the sequences of a prefix, 0 when there is none |
| CaseCodes.NumericCodeIsFresh | src/casos/casos.service.ts:20-55 | a code built from the numeric maximum is never already stored, whatever the sequences' widths |
| CaseCodes.NumericCodeAgreesBelowOverflow | src/casos/casos.service.ts:20-55 | while all sequences have 4 digits, the numeric code equals the code as written |
| Casos.CalcularFechaLimite | src/casos/casos.service.ts:60-66 | the deadline is exactly 28 whole days after now |
| Casos.NewCaso | src/casos/casos.service.ts:71-90 | a new case has the generated code and is PENDIENTE with the deadline; a given priority or tag list is stored, otherwise MEDIA and []; each flag is set exactly when it was given as true; the descriptions, claimant and respondent are stored as given |
| Casos.InitialEntries | src/casos/casos.service.ts:124-135 | exactly one "Caso creado" entry (new status PENDIENTE, visible) iff both actor fields are truthy, and none otherwise |
| Casos.InitialEntryThroughController | src/casos/casos.controller.ts:30-34 | with the controller's default name, the initial entry depends only on the user id being present |
| Casos.Create | src/casos/casos.service.ts:71-146 | inserts the new case and appends the initial entries; a generated code that is already stored is refused by the unique column; while all sequences have 4 digits the create succeeds |
| Casos.Stamped | src/casos/casos.service.ts:336-338 | a change to RESUELTO without a resolution date is stamped with now; nothing is stamped if the case was already RESUELTO or a date is given |
| Casos.Apply | src/casos/casos.service.ts:358-373 | an update never changes the code, type, creation date, deadline or parties; a given status is taken |
| Casos.EmptyUpdateChangesNothing | src/casos/casos.service.ts:358-373 | an update with no fields set leaves the case exactly as it was |
| Casos.AssignmentEntries | src/casos/casos.service.ts:342-355 | one visible "Caso asignado" entry iff the assignee changes and both actor fields are truthy |
| Casos.StatusEntries | src/casos/casos.service.ts:323-334 | one visible "Cambio de estado" entry iff a status is given and differs, with old and new status and actor defaults 'SYSTEM'/'Sistema' |
| Casos.Update | src/casos/casos.service.ts:307-387 | a missing case is NotFound and nothing is written; otherwise the case is rewritten and the ledger grows by the assignment entry then the status entry |
| Casos.AssignmentForcesReview | src/casos/casos.service.ts:407-416 | an assignment leaves the case EN_REVISION with that assignee and name |
| Casos.AsignarCaso | src/casos/casos.service.ts:392-417 | a missing assignee or case is NotFound and nothing is written; otherwise the case is EN_REVISION and assigned |
| Casos.ArchiveOnlyChangesStatus | src/casos/casos.service.ts:501-522 | archiving changes only the status to ARCHIVADO and adds no assignment entry |
| Casos.Remove | src/casos/casos.service.ts:501-522 | remove is the update to ARCHIVADO: the set of stored cases is unchanged |
| Casos.FollowUpEntry | src/casos/casos.service.ts:437-448 | a follow-up is visible unless given as false; a truthy actor name is stored, otherwise 'Sistema'; a truthy user id is stored, otherwise none; it carries no status change |
| Casos.Reparent | src/casos/casos.service.ts:464-474 | only listed files of that case get the follow-up id; every other file is unchanged |
| Casos.ReparentRespectsCase | src/casos/casos.service.ts:464-474 | files of other cases are never re-parented, and an empty list changes nothing |
| Casos.AddSeguimiento | src/casos/casos.service.ts:422-496 | a missing case is NotFound and nothing is written; otherwise exactly one entry is appended and the listed files are re-parented |
| Casos.EnviarConstancia | src/casos/casos.service.ts:630-669 | NotFound for a missing case; BadRequest iff there is no complainant, no address or no authorisation; a transport failure propagates; success mails the complainant's address with the case code |
| CaseStats.DaysInMonth | src/casos/casos.service.ts:591-594 | a month has 28 to 31 days |
| CaseStats.MonthsBack | src/casos/casos.service.ts:591-594 | i months before today's month, by month arithmetic |
| CaseStats.SetMonthBack | src/casos/casos.service.ts:591-594 | the month that `setMonth(getMonth() - i)` on today's date lands in, day overflow included |
| CaseStats.TallyBound | src/casos/casos.service.ts:606-619 | resolved plus pending never exceed registered in a bucket |
| CaseStats.TallyOfOtherMonths | src/casos/casos.service.ts:606-619 | cases of other months leave a bucket at zero |
| CaseStats.WindowBounds | src/casos/casos.service.ts:591-594 | each month key produced by the initialisation lies between 11 months back and this month |
| CaseStats.InitialiseMonths | src/casos/casos.service.ts:591-603 | the map holds exactly the months the as-written loop produces, each at zero |
| CaseStats.CountCases | src/casos/casos.service.ts:606-619 | every initialised month holds the tally of its cases; cases outside the window are ignored |
| CaseStats.MonthsOfAppend | src/casos/casos.service.ts:622-624 | appending a bucket adds its month to the listed months |
| CaseStats.SortedBuckets | src/casos/casos.service.ts:622-624 | the list holds every bucket of the map once, in strictly ascending month order, and at most 12 |
| CaseStats.CalcularDatosMensuales | src/casos/casos.service.ts:587-625 | the report lists the tallies of the window months in ascending order; 12 buckets when today is day 28 or earlier |
| CaseStats.WindowIsTwelveMonths | src/casos/casos.service.ts:590-603 | the intended window is exactly the 12 months ending with the current one |
| CaseStats.InitialiseWindow | src/casos/casos.service.ts:590-603 | with plain month arithmetic, the zero buckets are keyed by exactly the intended window |
| CaseStats.CalcularDatosMensualesCorrected | src/casos/casos.service.ts:587-625 | the corrected report lists the tallies of the intended window in ascending order, with exactly 12 buckets whatever today's day |
| CaseStats.WindowAsWrittenUpToDay28 | src/casos/casos.service.ts:591-603 | up to day 28 the as-written window is exactly the intended one |
| CaseStats.ShortMonthIsSkipped | src/casos/casos.service.ts:591-594 | when today's day exceeds the length of a month i back, that month is missing from the window |
| CaseStats.SetMonthBackAt | src/casos/casos.service.ts:591-594 | `setMonth` lands on the target month, or on the month after it when the target is shorter than today's day |
| CaseStats.October31RecentMonths | src/casos/casos.service.ts:591-594 | on October 31 of any year, months 0 to 5 back land on October, October, August, July, July and May |
| CaseStats.October31EarlierMonths | src/casos/casos.service.ts:591-594 | on October 31 of any year, months 6 to 11 back land on May, March, March, January and December of the year before, twice |
| CaseStats.October31WindowAsWritten | src/casos/casos.service.ts:590-603 | on October 31 of any year the window holds exactly seven months; September, June, April, February and the November before are missing |
| CaseStats.November2025Skipped | src/casos/casos.service.ts:591-594 | on 2026-10-31 the report has no bucket for November 2025 |
| CaseStats.TypeGroupsDisjoint | src/casos/casos.service.ts:527-582 | no case is counted under two types |
| CaseStats.TypeGroupsCover | src/casos/casos.service.ts:527-582 | every case is counted under some type |
| CaseStats.TipoCountsSumToTotal | src/casos/casos.service.ts:527-582 | the counts per type add up to the total |
| CaseStats.EstadoCountsSumToTotal | src/casos/casos.service.ts:527-582 | the counts per status add up to the total |
| CaseStats.EstadoGroupsDisjoint | src/casos/casos.service.ts:527-582 | the status groups are pairwise disjoint |
| CaseStats.EstadoGroupsCover | src/casos/casos.service.ts:527-582 | the status groups together are every case |
| CaseStats.PriorityGroupsDisjoint | src/casos/casos.service.ts:527-582 | no case is counted under two priorities |
| CaseStats.PriorityGroupsCover | src/casos/casos.service.ts:527-582 | every case is counted under some priority |
| CaseStats.PrioridadCountsSumToTotal | src/casos/casos.service.ts:527-582 | the counts per priority add up to the total |
| CaseStats.TasaResolucion | src/casos/casos.service.ts:568 | the rate in hundredths of a percent is 0 when there are no cases, is rounded to the nearest value, lies between 0 and 100%, and is 100% when all are resolved |
| CaseStats.RoundedShare | src/casos/casos.service.ts:568 | the integer rounding formula stays within half a unit of the exact share |
| CaseStats.GetEstadisticas | src/casos/casos.service.ts:527-582 | the total is the number of cases; resolved equals the RESUELTO count; the rate and the monthly report follow their definitions |
| Archivos.NewArchivo | src/archivos/archivos.service.ts:55-68 | the record stores the original name, "/uploads/" + file name, type, size and the given ids; a truthy category is stored, otherwise PRUEBA_DOCUMENTAL |
| Archivos.ConstanciaByCode | src/archivos/archivos.service.ts:71-75 | a PDF whose name embeds the case code is a certificate |
| Archivos.CertificateMail | src/archivos/archivos.service.ts:71-90 | a mail is attempted iff the file is a certificate and the complainant has an address and authorised mail |
| Archivos.Create | src/archivos/archivos.service.ts:39-123 | a missing case is NotFound with no record; otherwise the record is inserted, whatever the mail outcome |
| Archivos.StoredName | src/archivos/archivos.service.ts:171 | `url.split('/').pop()` has no '/' |
| Archivos.StoredNameOfUpload | src/archivos/archivos.service.ts:58-68 | the stored name of an upload is the file name it was saved under |
| Archivos.GetFilePath | src/archivos/archivos.service.ts:162-184 | NotFound for a missing record, an empty name or a file absent from disk; otherwise "uploads/" + name |
| Archivos.Remove | src/archivos/archivos.service.ts:189-221 | NotFound with nothing deleted for a missing record or an empty name; otherwise exactly that record goes |
| Archivos.ValidateFileType | src/archivos/archivos.service.ts:258-271 | true iff the type is one of the 8 listed |
| Archivos.FileTypeExamples | src/archivos/archivos.service.ts:258-271 | every certificate type is accepted, images too; plain text and zip are refused |
| Archivos.LeadingDigits | src/archivos/archivos.service.ts:277 | the longest decimal digit prefix, the part `parseInt` reads from a setting without a "0x" prefix |
| Archivos.HexValue | src/archivos/archivos.service.ts:277 | a hexadecimal digit in either case has a value below 16, and a decimal digit keeps its value |
| Archivos.LeadingHexDigits | src/archivos/archivos.service.ts:277 | the longest hexadecimal digit prefix, the part `parseInt` reads after "0x" |
| Archivos.LeadingHexDigitsOfHex | src/archivos/archivos.service.ts:277 | on a string of hexadecimal digits `parseInt` reads the whole string |
| Archivos.ParseHexShift | src/archivos/archivos.service.ts:277 | appending a 0 digit multiplies the hexadecimal value by 16 |
| Archivos.SettingDigits | src/archivos/archivos.service.ts:277 | the digits read: the hexadecimal ones after a "0x"/"0X" prefix, otherwise the leading decimal ones |
| Archivos.ParseIntNoRadix | src/archivos/archivos.service.ts:277 | a radix-less `parseInt` is NaN exactly when it reads no digit |
| Archivos.ValidateFileSize | src/archivos/archivos.service.ts:276-279 | without a setting the limit is 10485760; a setting from which `parseInt` reads no digit refuses every size; otherwise size ≤ the setting read in base 16 after "0x", in base 10 otherwise |
| Archivos.DecimalSettingReadWhole | src/archivos/archivos.service.ts:276-279 | a setting of decimal digits is read whole, in base 10 |
| Archivos.HexSettingExample | src/archivos/archivos.service.ts:276-279 | the setting "0x100000" accepts exactly the sizes up to 1048576, where its decimal prefix alone is "0" |
| Archivos.LeadingDigitsOfDigits | src/archivos/archivos.service.ts:277 | on a string of digits `parseInt` reads the whole string |
| Archivos.DefaultMaxFileSizeText | src/archivos/archivos.service.ts:277 | the default setting "10485760" is the decimal text of the 10 MB limit |
| Archivos.ParseDefaultMaxFileSize | src/archivos/archivos.service.ts:277 | the default setting parses to 10485760 |
| Common.OrElse | src/archivos/archivos.service.ts:55 | `a \|\| b` picks a when truthy and b otherwise |
| Common.ContainsAt | src/archivos/archivos.service.ts:72 | an occurrence at an index makes `includes` true |
| Common.ContainsWitness | src/archivos/archivos.service.ts:72 | `includes` true gives an index of occurrence |
| Common.ContainsIff | src/archivos/archivos.service.ts:72 | `includes` holds iff the substring occurs at some index |
| Common.ToLower | src/users/users.service.ts:20 | `toLowerCase` keeps the length and lowercases each letter |
| Common.ToLowerIdempotent | src/users/users.service.ts:20 | lowercasing twice is lowercasing once |
| Common.LastSegment | src/archivos/archivos.service.ts:171 | the last '/'-segment is the '/'-free suffix that follows the last '/', or the whole string when there is none |
| Common.LastSegmentOfPath | src/archivos/archivos.service.ts:171 | the last segment of a directory ending in '/' plus a '/'-free name is that name |
| Users.WithoutPasswordLosesOnlyPassword | src/users/users.service.ts:16-22 | dropping the password loses nothing else |
| Users.FormatUser | src/users/users.service.ts:16-22 | the row without its password, with the status lowercased |
| Users.FormatUserIgnoresPassword | src/users/users.service.ts:16-22 | the password never shows in a formatted user |
| Users.NewUser | src/users/users.service.ts:56-92 | a new user stores the hash and the role, with status ACTIVE by default and no login or token |
| Users.Create | src/users/users.service.ts:24-105 | Conflict on the email, then on a document pair when both fields are given, then NotFound for a missing role, with nothing written; otherwise inserted and the role's count is accurate |
| Users.Override | src/users/users.service.ts:262-287 | a given field replaces the stored one |
| Users.ApplyChanges | src/users/users.service.ts:250-287 | the written row takes the given email, role and document, hashes a new password, and keeps login and token fields |
| Users.UpdateRefusal | src/users/users.service.ts:180-247 | the update guards in order: NotFound, Conflict on email, Conflict on the resulting document, NotFound role |
| Users.UpdateChecksResultingDocument | src/users/users.service.ts:202-230 | changing only the number is checked against the resulting pair |
| Users.Update | src/users/users.service.ts:180-294 | fails exactly on the guards with nothing written; otherwise writes the row; on a role change both counts are recounted before the write and neither is accurate afterwards |
| Users.UpdateRecountingAfterWrite | src/users/users.service.ts:180-294 | the same guards and write, with both roles' counts accurate afterwards |
| Users.RecountRoles | src/users/users.service.ts:242-246 | the role left and the role joined are recounted in that order; both counts then match the user table and no other role changes |
| Users.WriteUser | src/users/users.service.ts:262-287 | writing a row with a stored role and a unique email keeps every invariant |
| Users.EmailStaysUnique | src/users/users.service.ts:191-199 | an update passing the email guard keeps emails unique |
| Users.RoleMoveShiftsCounts | src/users/users.service.ts:243-246 | moving a user adds one to the new role's count and takes one from the old |
| Users.Remove | src/users/users.service.ts:296-326 | NotFound; BadRequest with nothing deleted while cases are assigned; otherwise exactly that user goes |
| Users.AsUserChanges | src/users/users.service.ts:427-452 | a profile update never touches email, password, role, status or avatar |
| Users.ProfileRefusal | src/users/users.service.ts:369-416 | the profile guards in order; a document conflict needs both fields |
| Users.UpdateProfile | src/users/users.service.ts:369-459 | fails exactly on the guards with nothing written; otherwise only the profile fields change |
| Users.ChangePassword | src/users/users.service.ts:461-494 | NotFound; Unauthorized on a mismatch; otherwise only the hash changes |
| Roles.NewRole | src/roles/roles.service.ts:25-29 | a new role has no permissions unless given, is not a system role unless said, and counts no users |
| Roles.Apply | src/roles/roles.service.ts:67-70 | an update keeps the count and takes the given name |
| Roles.FreshRoleHasNoUsers | src/roles/roles.service.ts:16-30 | no user refers to a role not yet stored |
| Roles.Create | src/roles/roles.service.ts:16-30 | Conflict with nothing written when the name is in use; otherwise inserted with an accurate count |
| Roles.FindOne | src/roles/roles.service.ts:40-48 | the stored role, or NotFound |
| Roles.Update | src/roles/roles.service.ts:50-73 | NotFound; Conflict only when a non-empty new name differs and is in use; success iff the unique column also accepts |
| Roles.UniqueViolationNeedsEmptyName | src/roles/roles.service.ts:57-65 | the unique column refuses only an empty new name |
| Roles.RemoveRefusal | src/roles/roles.service.ts:86-97 | a system role is refused before the user check; a role with users is refused |
| Roles.Remove | src/roles/roles.service.ts:75-102 | NotFound; BadRequest with nothing deleted on a refusal; otherwise exactly that role goes |
| Roles.NoUsersLeft | src/roles/roles.service.ts:93-99 | a role counted with no users is referenced by none |
| Roles.UpdatePermissions | src/roles/roles.service.ts:104-124 | NotFound; otherwise only the permissions change |
| Roles.UpdateUsersCount | src/roles/roles.service.ts:149-160 | the count is set to, and returns, the number of users with that role |
| Sedes.ApplySede | src/sedes/sedes.service.ts:44-57 | each given field (name, address, phone, email, active flag) replaces the stored one and each absent field keeps it; an empty update changes nothing |
| Sedes.DependenciasOf | src/sedes/sedes.service.ts:29-42 | exactly the departments of the campus |
| Sedes.FindOne | src/sedes/sedes.service.ts:29-42 | the campus with its departments, or NotFound |
| Sedes.Update | src/sedes/sedes.service.ts:44-57 | NotFound; otherwise only that campus changes |
| Sedes.Remove | src/sedes/sedes.service.ts:59-78 | NotFound; BadRequest with nothing deleted while departments remain; otherwise exactly that campus goes |
| Dependencias.NewDependencia | src/dependencias/dependencias.service.ts:10-26 | a new department stores the given name, description, head and campus, and is active unless a flag is given |
| Dependencias.ApplyDependencia | src/dependencias/dependencias.service.ts:70-74 | each given field (name, description, head, campus, active flag) replaces the stored one and each absent field keeps it |
| Dependencias.Create | src/dependencias/dependencias.service.ts:10-26 | NotFound with nothing written for a missing campus; otherwise inserted |
| Dependencias.FindOne | src/dependencias/dependencias.service.ts:37-48 | the department with its campus, or NotFound |
| Dependencias.Update | src/dependencias/dependencias.service.ts:50-77 | NotFound; a given campus must exist; otherwise only that department changes |
| Dependencias.Remove | src/dependencias/dependencias.service.ts:79-91 | NotFound; otherwise exactly that department goes |
| Dependencias.LastDependenciaUnblocksSede | src/sedes/sedes.service.ts:69-75 | removing a campus's last department makes the campus removable |
| Publicaciones.NewPublicacion | src/publicaciones/publicaciones.service.ts:16-27 | priority 0 and type ANUNCIO by default, created by the caller, active, published now |
| Publicaciones.IndexOf | src/publicaciones/publicaciones.service.ts:112-134 | the first position of the id, or -1 iff absent |
| Publicaciones.Create | src/publicaciones/publicaciones.service.ts:13-47 | appends the new row |
| Publicaciones.Insert | src/publicaciones/publicaciones.service.ts:63-66 | insertion keeps the order and adds exactly one row |
| Publicaciones.InsertHead | src/publicaciones/publicaciones.service.ts:63-66 | the head of an ordered list stays first after an insertion behind it |
| Publicaciones.Sort | src/publicaciones/publicaciones.service.ts:63-66 | ordered by priority then publication date, descending, and a permutation |
| Publicaciones.FindAll | src/publicaciones/publicaciones.service.ts:52-73 | every row, in that order |
| Publicaciones.Activas | src/publicaciones/publicaciones.service.ts:82-88 | exactly the active, unexpired rows |
| Publicaciones.FindActivas | src/publicaciones/publicaciones.service.ts:78-107 | exactly the active, unexpired rows, ordered |
| Publicaciones.FindOne | src/publicaciones/publicaciones.service.ts:112-134 | the row with that id, or NotFound |
| Publicaciones.ApplyChanges | src/publicaciones/publicaciones.service.ts:139-173 | id, author and publication date stay; a given active flag is taken |
| Publicaciones.Toggle | src/publicaciones/publicaciones.service.ts:178-192 | flips the active flag and nothing else |
| Publicaciones.ToggleTwice | src/publicaciones/publicaciones.service.ts:178-192 | toggling twice restores the row |
| Publicaciones.Update | src/publicaciones/publicaciones.service.ts:139-173 | NotFound; otherwise the row is rewritten in place |
| Publicaciones.ToggleActivo | src/publicaciones/publicaciones.service.ts:178-193 | NotFound; otherwise the row is toggled in place |
| Publicaciones.Remove | src/publicaciones/publicaciones.service.ts:198-210 | NotFound; otherwise exactly the row with that id goes and the others keep their order |
| Publicaciones.RemoveAtKeepsOthers | src/publicaciones/publicaciones.service.ts:202-204 | every row with another id survives the delete |
| Publicaciones.RemoveAtDropsId | src/publicaciones/publicaciones.service.ts:202-204 | with unique ids, no row with the deleted id survives |
| Publicaciones.RemoveAtKeepsIdsUnique | src/publicaciones/publicaciones.service.ts:202-204 | the delete keeps ids unique |
| Publicaciones.RemoveAt | src/publicaciones/publicaciones.service.ts:202-204 | cutting out one row removes exactly its id and keeps ids unique |
| Auth.Login | src/auth/auth.service.ts:24-87 | Unauthorized for an unknown email; BadRequest when inactive, before the password; Unauthorized on a mismatch; success writes lastLogin and returns the formatted user |
| Auth.ValidateUser | src/auth/auth.service.ts:89-110 | the user without password iff it exists and is ACTIVE |
| Auth.ValidatedUserMatchesLogin | src/auth/auth.service.ts:77-106 | the session holder equals the login answer for the same user, except that its status is not lowercased |
| Auth.Issued | src/auth/auth.service.ts:140-153 | the token and an expiry one hour ahead are stored, nothing else changes |
| Auth.RequestPasswordReset | src/auth/auth.service.ts:112-168 | the same message in every case; only an active holder of the email gets a token and a mail |
| Auth.ValidateResetToken | src/auth/auth.service.ts:170-190 | accepted iff a user holds the token unexpired; BadRequest otherwise |
| Auth.IssuedTokenLastsAnHour | src/auth/auth.service.ts:140-184 | an issued token is valid exactly until one hour after issue |
| Auth.Cleared | src/auth/auth.service.ts:222-229 | the new hash is stored and the token and expiry are cleared |
| Auth.ResetPassword | src/auth/auth.service.ts:192-235 | BadRequest for an unaccepted token or an inactive holder; success clears the token so it is never accepted again |
| Auth.TokenHolderUnique | src/auth/auth.service.ts:196-209 | only one user holds a token |
| Auth.TokenGone | src/auth/auth.service.ts:222-229 | once cleared, the token is held by nobody |

## Left out

- The mail transport, SMTP and the HTML templates are not modelled. A send is a `delivered` flag where the outcome depends on it (`enviarConstancia`), or the mail that would be attempted where a delivery failure is swallowed (the upload of a certificate).
- The disk is not modelled: the upload directory, `existsSync`, `unlink`, file streams and multer. File existence is the `onDisk` predicate. A swallowed disk error is not observable.
- bcrypt, JWT signing and `crypto.randomBytes` are outside the model. They are a `matches` function, given hashes and given tokens.
- Auth.RequestPasswordReset: requires a token no user holds, standing for the randomness of `crypto.randomBytes(32)`.
- The database schema file is not part of this model. The column defaults it would state are assumed:
  - case status "PENDIENTE", and the creation date set at insert time;
  - user status "ACTIVE";
  - departments and announcements active;
  - publication date now;
  - role count 0, not a system role, permissions empty.
- Casos.NewCaso: the source takes the deadline from the service clock (src/casos/casos.service.ts:59-64) and the creation date from the database at insert. The model takes both from one instant `now`, so `Db.DeadlinesHold` (deadline exactly 28 days after creation) holds by construction. In the source the two instants differ by the time between the two steps.
- Foreign keys are not modelled beyond the `Db.Valid` invariants.
- Casos.Update: an `asignadoA` that names no user is not refused. In the source the "Caso asignado" entry is stored first (src/casos/casos.service.ts:342-355) and the case update then fails on the foreign key (358-373), leaving that entry behind. The model writes both.
- The catch-all that turns any Prisma error into BadRequest in the announcement create and update is not modelled.
- Concurrency is out of scope. Code generation reads and then inserts with no transaction, and is modelled as one sequential step.
- Time has no time zone or daylight-saving behaviour. An instant is whole seconds. The reset expiry is now + 3600 seconds. The monthly statistics take calendar dates already converted to local time.
- Month names (`toLocaleDateString`) are not modelled; buckets are keyed by (year, month).
- CaseStats.TasaResolucion: `toFixed(2)` on a float is modelled as integer rounding to hundredths of a percent. Float rounding at exact halves is not captured.
- CaseStats.GetEstadisticas: takes the recent cases as (month, status) samples. The `fechaCreacion >= 12 months ago` query is not modelled.
- Lists and searches that only read are not modelled:
  - `findAll` of cases, users, roles, campuses and departments, and its case-insensitive search;
  - `findByCodigo`, `findByCaso`, `getProfile`, `getRoleWithUsers`;
  - Prisma `include` and `select` result shapes.
- `sedes.create` is not modelled, nor `archivos.createPublicacionArchivo`. Both are plain inserts with no guard.
- Users.Remove: does not recount the role's `usersCount`, as the source does not.
- Users.FormatUser: the reset token and its expiry stay in the answer, as they do in the source.
- `path.join` normalisation is not modelled. The path is "uploads/" + name.
- Archivos.ParseIntNoRadix: `parseInt` also skips leading whitespace and accepts a sign before the digits or the "0x" prefix. Those settings are not modelled.
- The validation rules of the DTOs are preconditions, not operations:
  - Casos.Create needs descriptions of 20 characters or more;
  - Casos.AddSeguimiento needs a comment of 10 characters or more;
  - Users.Update needs a non-empty email and role and a password of at least 6 characters;
  - Dependencias.Update needs a non-empty campus id.
- An update cannot clear an optional column by sending `null`. Every optional field is either given or left as it is.

## Findings

| source | as written | input that shows it | evidently intended | confidence | as-written member | corrected member |
|---|---|---|---|---|---|---|
| src/casos/casos.service.ts:32-50 | the last code is chosen by string order (`orderBy codigo desc`), and "…-9999" sorts above "…-10000" | codes `{prefix}-{year}-9999` and `{prefix}-{year}-10000` stored, for any type and year (for instance "REC-2025-9999" and "REC-2025-10000"): the generated code is `{prefix}-{year}-10000` again, so every further case of that type and year is refused by the unique column | the next sequence is one more than the numerically greatest sequence | high, not executed | CaseCodes.OverflowRepeatsCode | CaseCodes.NumericCodeIsFresh |
| src/casos/casos.service.ts:591-594 | each window month is built with `setMonth(getMonth() - i)` on today's date, so a day past the target month's length rolls into the next month | today 2026-10-31 (or October 31 of any year): `setMonth` overflows for 1, 4, 6, 8 and 11 months back, so September, June, April and February 2026 and November 2025 have no bucket, five months are built twice, and the report has 7 buckets instead of 12 | the 12 calendar months ending with the current one | high, not executed | CaseStats.October31WindowAsWritten | CaseStats.CalcularDatosMensualesCorrected |
| src/users/users.service.ts:243-246 | on a role change both roles are recounted before the user row is written at line 262 | a user moved from role A to role B: A keeps counting the user and B does not | recount both roles after the write | high, not executed | Users.Update | Users.UpdateRecountingAfterWrite |
