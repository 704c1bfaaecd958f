/** Values shared by every service: optional values, the HTTP exceptions the
    services raise, JavaScript truthiness of optional strings, and the few
    string operations the services perform. */
module Common {

  datatype Option<T> = None | Some(value: T) {
    function GetOr(default: T): T {
      match this
      case Some(v) => v
      case None => default
    }
  }

  /** The NestJS exceptions the services throw, the database's refusal of a
      row that breaks a unique constraint, and a mail transport failure. */
  datatype Error =
    | NotFound
    | Conflict
    | BadRequest
    | Unauthorized
    | UniqueViolation
    | MailFailed

  datatype Result<T> = Ok(value: T) | Err(error: Error)

  /** Instants are whole seconds on the server clock. */
  type Instant = int

  const SecondsPerHour: int := 3600
  const SecondsPerDay: int := 86400

  /** JavaScript truthiness of an optional string: present and not "". */
  predicate Truthy(s: Option<string>) {
    s.Some? && s.value != ""
  }

  /** `a || b` on optional strings. */
  function OrElse(s: Option<string>, default: string): (r: string)
    ensures Truthy(s) ==> r == s.value
    ensures !Truthy(s) ==> r == default
  {
    if Truthy(s) then s.value else default
  }

  predicate StartsWith(s: string, prefix: string) {
    |prefix| <= |s| && s[..|prefix|] == prefix
  }

  /** `s.includes(sub)`, scanning left to right. */
  predicate Contains(s: string, sub: string)
    decreases |s|
  {
    StartsWith(s, sub) || (|s| > 0 && Contains(s[1..], sub))
  }

  /** `sub` occurs in `s` starting at index `i`. */
  predicate OccursAt(s: string, sub: string, i: nat) {
    i + |sub| <= |s| && s[i..i + |sub|] == sub
  }

  lemma {:induction false} ContainsAt(s: string, sub: string, i: nat)
    requires OccursAt(s, sub, i)
    ensures Contains(s, sub)
    decreases i
  {
    if i == 0 {
      assert StartsWith(s, sub);
    } else {
      assert s[1..][i - 1..i - 1 + |sub|] == s[i..i + |sub|];
      ContainsAt(s[1..], sub, i - 1);
    }
  }

  lemma {:induction false} ContainsWitness(s: string, sub: string) returns (i: nat)
    requires Contains(s, sub)
    ensures OccursAt(s, sub, i)
    decreases |s|
  {
    if StartsWith(s, sub) {
      i := 0;
    } else {
      var j := ContainsWitness(s[1..], sub);
      assert s[1..][j..j + |sub|] == s[j + 1..j + 1 + |sub|];
      i := j + 1;
    }
  }

  /** `includes` holds exactly when `sub` occurs at some position of `s`. */
  lemma ContainsIff(s: string, sub: string)
    ensures Contains(s, sub) <==> exists i: nat :: OccursAt(s, sub, i)
  {
    if Contains(s, sub) {
      var i := ContainsWitness(s, sub);
    }
    if exists i: nat :: OccursAt(s, sub, i) {
      var i: nat :| OccursAt(s, sub, i);
      ContainsAt(s, sub, i);
    }
  }

  predicate IsUpper(c: char) { 'A' <= c <= 'Z' }

  /** `toLowerCase()` on the ASCII letters the enum names use. */
  function LowerChar(c: char): (r: char)
    ensures !IsUpper(r)
    ensures !IsUpper(c) ==> r == c
  {
    if IsUpper(c) then (c as int + 32) as char else c
  }

  function ToLower(s: string): (r: string)
    ensures |r| == |s|
    ensures forall i :: 0 <= i < |s| ==> r[i] == LowerChar(s[i])
  {
    seq(|s|, i requires 0 <= i < |s| => LowerChar(s[i]))
  }

  lemma ToLowerIdempotent(s: string)
    ensures ToLower(ToLower(s)) == ToLower(s)
    ensures forall i :: 0 <= i < |s| ==> !IsUpper(ToLower(s)[i])
  {
  }

  /** The text after the last '/', which is what `url.split('/').pop()` returns
      (the whole string when it has no '/'). */
  function LastSegment(s: string): (r: string)
    ensures |r| <= |s| && r == s[|s| - |r|..]
    ensures '/' !in r
    ensures |r| < |s| ==> s[|s| - |r| - 1] == '/'
    decreases |s|
  {
    if |s| == 0 then ""
    else if s[|s| - 1] == '/' then ""
    else
      var init := s[..|s| - 1];
      var r := LastSegment(init) + [s[|s| - 1]];
      assert init[|init| - |LastSegment(init)|..] + [s[|s| - 1]] == s[|s| - |r|..];
      r
  }

  /** The segment after a directory prefix ending in '/' is the file name
      itself, provided the name has no '/'. */
  lemma {:induction false} LastSegmentOfPath(dir: string, name: string)
    requires |dir| > 0 && dir[|dir| - 1] == '/'
    requires '/' !in name
    ensures LastSegment(dir + name) == name
    decreases |name|
  {
    if |name| == 0 {
      assert dir + name == dir;
    } else {
      var init := name[..|name| - 1];
      assert (dir + name)[..|dir + name| - 1] == dir + init;
      assert '/' !in init by {
        forall i | 0 <= i < |init| ensures init[i] != '/' { assert init[i] == name[i]; }
      }
      LastSegmentOfPath(dir, init);
      assert init + [name[|name| - 1]] == name;
    }
  }
}
