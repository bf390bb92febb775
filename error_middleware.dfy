/** The central error handler and the unknown-route answer
    (`backend/src/middleware/error.middleware.js`). */
module ErrorMiddleware {
  import opened Common
  import opened Responses

  /** The fields of a thrown error the handler looks at. `multer` says whether
      it is an upload-library error; `kind` is the `type` property. */
  datatype Err = Err(multer: bool, code: Option<string>, message: Option<string>,
                     kind: Option<string>, errors: Option<seq<ErrorItem>>,
                     status: Option<int>, statusCode: Option<int>, stack: Option<string>)

  const FILE_TOO_LARGE := "El archivo supera el tamaño máximo permitido"
  const UNEXPECTED_FILE := "Campo de archivo inesperado"
  const DUPLICATE_PREFIX := "Ya existe un registro con ese valor en: "
  const MISSING_REFERENCE := "Referencia a un registro que no existe"
  const INTERNAL := "Error interno del servidor"
  const KEY_MARKER := "for key '"

  /** A template literal renders an absent value as "undefined". */
  function Render(x: Option<string>): string {
    if x.Some? then x.value else "undefined"
  }

  /** The characters `.` does not match. */
  predicate IsLineTerminator(c: char) {
    c == '\n' || c == '\r' || c == '\U{2028}' || c == '\U{2029}'
  }

  /** The lazy group `(.+?)'` of `/for key '(.+?)'/` started at `j`: the
      shortest non-empty run of non-line-terminators, from `j`, followed by a
      quote; `k` is the end being tried. */
  function Capture(s: string, j: nat, k: nat): (r: Option<string>)
    requires j < k
    requires forall m :: j <= m < k - 1 && m < |s| ==> !IsLineTerminator(s[m])
    requires forall m :: j < m < k && m < |s| ==> s[m] != '\''
    ensures r.Some? ==> |r.value| >= 1 && j + |r.value| < |s|
                        && s[j..j + |r.value|] == r.value && s[j + |r.value|] == '\''
                        && k <= j + |r.value| + 1
                        && forall c :: c in r.value ==> !IsLineTerminator(c)
    ensures r.Some? ==> forall m :: j < m < j + |r.value| ==> s[m] != '\''
    decreases |s| - k
  {
    if k >= |s| || k - 1 >= |s| then None
    else if IsLineTerminator(s[k - 1]) then None
    else if s[k] == '\'' then Some(s[j..k])
    else Capture(s, j, k + 1)
  }

  predicate MarkerAt(s: string, i: nat) {
    i + |KEY_MARKER| <= |s| && s[i..i + |KEY_MARKER|] == KEY_MARKER
  }

  /** The leftmost match at or after `i`. */
  function MatchFrom(s: string, i: nat): (r: Option<string>)
    ensures r.Some? ==> exists p :: i <= p && MarkerAt(s, p) && Capture(s, p + |KEY_MARKER|, p + |KEY_MARKER| + 1) == r
    ensures r.None? ==> forall p :: i <= p && MarkerAt(s, p) ==> Capture(s, p + |KEY_MARKER|, p + |KEY_MARKER| + 1).None?
    decreases |s| - i
  {
    if i + |KEY_MARKER| > |s| then None
    else if MarkerAt(s, i) && Capture(s, i + |KEY_MARKER|, i + |KEY_MARKER| + 1).Some? then
      Capture(s, i + |KEY_MARKER|, i + |KEY_MARKER| + 1)
    else
      MatchFrom(s, i + 1)
  }

  /** `message.match(/for key '(.+?)'/)?.[1]`. */
  function FindKey(message: string): (r: Option<string>)
    ensures r.Some? ==> r.value != "" && exists p :: MarkerAt(message, p)
  {
    MatchFrom(message, 0)
  }

  /** The key is read from the first marker when the text before it cannot
      start one. */
  lemma FindKeyNamed(a: string, key: string, b: string)
    requires 'f' !in a && key != "" && '\'' !in key
    requires forall c :: c in key ==> !IsLineTerminator(c)
    ensures FindKey(a + KEY_MARKER + key + "'" + b) == Some(key)
  {
    var s := a + KEY_MARKER + key + "'" + b;
    var j := |a| + |KEY_MARKER|;
    assert s[|a|..|a| + |KEY_MARKER|] == KEY_MARKER;
    assert s[j..j + |key|] == key;
    assert s[j + |key|] == '\'';
    CaptureReaches(s, j, j + 1, key);
    NoEarlierMarker(s, a, 0);
  }

  lemma {:induction false} CaptureReaches(s: string, j: nat, k: nat, key: string)
    requires j < k <= j + |key| && j + |key| < |s|
    requires s[j..j + |key|] == key && s[j + |key|] == '\'' && '\'' !in key
    requires forall c :: c in key ==> !IsLineTerminator(c)
    ensures Capture(s, j, k) == Some(key)
    decreases j + |key| - k
  {
    assert s[k - 1] == key[k - 1 - j];
    if k < j + |key| {
      assert s[k] == key[k - j];
      CaptureReaches(s, j, k + 1, key);
    }
  }

  lemma {:induction false} NoEarlierMarker(s: string, a: string, i: nat)
    requires i <= |a| && |a| + |KEY_MARKER| <= |s| && s[..|a|] == a && 'f' !in a
    requires MarkerAt(s, |a|) && Capture(s, |a| + |KEY_MARKER|, |a| + |KEY_MARKER| + 1).Some?
    ensures MatchFrom(s, i) == Capture(s, |a| + |KEY_MARKER|, |a| + |KEY_MARKER| + 1)
    decreases |a| - i
  {
    if i < |a| {
      assert s[i] == a[i] && KEY_MARKER[0] == 'f';
      assert s[i..i + |KEY_MARKER|][0] == s[i] != KEY_MARKER[0];
      NoEarlierMarker(s, a, i + 1);
    }
  }

  /** `errorHandler(err, req, res)`: the branches in order, the first that
      applies answers. `nodeEnv` is `NODE_ENV`. */
  function ErrorHandler(err: Err, nodeEnv: Option<string>): (r: Response<()>)
    ensures !r.body.success && r.body.data.None?
    ensures err.multer ==> r.status == 400
    ensures err.multer && err.code == Some("LIMIT_FILE_SIZE") ==> r.body.message == Some(FILE_TOO_LARGE)
    ensures !err.multer && err.kind == Some("validation")
            ==> r.status == 422 && r.body.message == Some(VALIDATION_MESSAGE) && r.body.errors == err.errors
    ensures !err.multer && err.kind != Some("validation") && err.code == Some("ER_DUP_ENTRY")
            ==> r.status == 409 && r.body.message.Some?
                && var key := FindKey(Render(err.message));
                   r.body.message.value == DUPLICATE_PREFIX + (if key.Some? then key.value else "campo")
    ensures !err.multer && err.kind != Some("validation") && err.code == Some("ER_NO_REFERENCED_ROW_2")
            ==> r.status == 400 && r.body.message == Some(MISSING_REFERENCE)
    ensures !err.multer && err.kind != Some("validation")
            && err.code != Some("ER_DUP_ENTRY") && err.code != Some("ER_NO_REFERENCED_ROW_2")
            ==> && r.status == (if TruthyInt(err.status) then err.status.value
                               else if TruthyInt(err.statusCode) then err.statusCode.value else 500)
                && (nodeEnv == Some("production") ==> r.body.message == Some(INTERNAL))
                && (nodeEnv != Some("production") ==> r.body.message == err.message)
                && (r.body.stack.Some? <==> nodeEnv == Some("development") && err.stack.Some?)
  {
    if err.multer then
      var message :=
        if err.code == Some("LIMIT_FILE_SIZE") then FILE_TOO_LARGE
        else if err.code == Some("LIMIT_UNEXPECTED_FILE") then
          (if TruthyString(err.message) then err.message.value else UNEXPECTED_FILE)
        else "Error de upload: " + Render(err.message);
      Response(400, Body(false, Some(message), None, None, None, None, None))
    else if err.kind == Some("validation") then
      Response(422, Body(false, Some(VALIDATION_MESSAGE), None, err.errors, None, None, None))
    else if err.code == Some("ER_DUP_ENTRY") then
      var key := FindKey(Render(err.message));
      var field := if key.Some? then key.value else "campo";
      Response(409, Body(false, Some(DUPLICATE_PREFIX + field), None, None, None, None, None))
    else if err.code == Some("ER_NO_REFERENCED_ROW_2") then
      Response(400, Body(false, Some(MISSING_REFERENCE), None, None, None, None, None))
    else
      var status := if TruthyInt(err.status) then err.status.value
                    else if TruthyInt(err.statusCode) then err.statusCode.value else 500;
      var message := if nodeEnv == Some("production") then Some(INTERNAL) else err.message;
      var stack := if nodeEnv == Some("development") then err.stack else None;
      Response(status, Body(false, message, None, None, None, stack, None))
  }

  /** A duplicate-key error names the key MySQL reports. */
  lemma DuplicateEntryNamesKey(err: Err, a: string, key: string, b: string, nodeEnv: Option<string>)
    requires !err.multer && err.kind != Some("validation") && err.code == Some("ER_DUP_ENTRY")
    requires err.message == Some(a + KEY_MARKER + key + "'" + b)
    requires 'f' !in a && key != "" && '\'' !in key
    requires forall c :: c in key ==> !IsLineTerminator(c)
    ensures ErrorHandler(err, nodeEnv) == Response(409, Body(false, Some(DUPLICATE_PREFIX + key),
                                                             None, None, None, None, None))
  {
    FindKeyNamed(a, key, b);
  }

  /** The unknown-route answer: always 404. */
  function NotFoundRoute(verb: string, url: string): (r: Response<()>)
    ensures r.status == 404 && !r.body.success
    ensures r.body.message == Some("Ruta no encontrada: " + verb + " " + url)
  {
    Response(404, Body(false, Some("Ruta no encontrada: " + verb + " " + url), None, None, None, None, None))
  }
}
