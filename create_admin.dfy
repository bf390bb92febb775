/** The bootstrap script `backend/scripts/create-admin.js`: the raw-mode
    password prompt with its keystroke buffer, the script's own copy of the
    password rules, the prompt/confirm loop and the inserts that create the
    first administrator. Terminal input is a sequence of `data` chunks given
    as a parameter; echoing `*` and the console messages are left out. */
module CreateAdmin {
  import opened Common
  import opened Store
  import opened PasswordPolicy
  import opened Roles
  import UsersController

  const DEFAULT_USERNAME := "ops_root_x9A7"

  // ---------------------------------------------------------------------
  // validatePassword
  // ---------------------------------------------------------------------

  /** The script's wording of each rule. */
  function AdminMessage(rule: Rule): string {
    match rule
    case Length => "Mínimo 8 caracteres"
    case Upper => "Al menos una mayúscula"
    case Lower => "Al menos una minúscula"
    case Digit => "Al menos un número"
    case Special => "Al menos un carácter especial"
  }

  function AdminMessages(rules: seq<Rule>): (errors: seq<string>)
    ensures |errors| == |rules| && forall i :: 0 <= i < |rules| ==> errors[i] == AdminMessage(rules[i])
  {
    seq(|rules|, i requires 0 <= i < |rules| => AdminMessage(rules[i]))
  }

  lemma AppendMessage(rules: seq<Rule>, rule: Rule)
    ensures AdminMessages(rules + [rule]) == AdminMessages(rules) + [AdminMessage(rule)]
  {
  }

  /** The messages `validatePassword` returns: one per broken rule, in rule
      order. */
  function AdminErrors(pw: string): (errors: seq<string>)
    ensures |errors| <= 5
  {
    AdminMessages(FailedRules(Some(pw)))
  }

  /** The script and the API accept the same passwords: no message exactly
      when the password is acceptable. */
  lemma AdminErrorsEmptyIff(pw: string)
    ensures AdminErrors(pw) == [] <==> Acceptable(pw)
    ensures AdminErrors(pw) == [] <==> ValidatePasswordStrength(Some(pw)).valid
  {
    StrengthAccepts(Some(pw));
    assert |AdminErrors(pw)| == |ValidatePasswordStrength(Some(pw)).errors|;
  }

  lemma FirstListed(s: seq<Rule>)
    ensures s == [] || s[0] in s
  {
  }

  /** Two rule lists in checking order with the same members are equal. */
  lemma {:induction false} InOrderUnique(a: seq<Rule>, b: seq<Rule>)
    requires InOrder(a) && InOrder(b) && forall r :: r in a <==> r in b
    ensures a == b
    decreases |a|
  {
    if a == [] {
      FirstListed(b);
    } else {
      assert b != [] by { assert a[0] in b; }
      assert b[0] in a && a[0] in b;
      var i :| 0 <= i < |a| && a[i] == b[0];
      var j :| 0 <= j < |b| && b[j] == a[0];
      var ra, rb := Rank(a[0]), Rank(b[0]);
      assert i == 0 || ra < rb;
      assert j == 0 || rb < ra;
      assert a[0] == b[0];
      forall r ensures r in a[1..] <==> r in b[1..] {
        if r in a[1..] {
          var i :| 1 <= i < |a| && a[i] == r;
          assert Rank(a[0]) < Rank(r);
          assert r in b && r != b[0];
        }
        if r in b[1..] {
          var j :| 1 <= j < |b| && b[j] == r;
          assert Rank(b[0]) < Rank(r);
          assert r in a && r != a[0];
        }
      }
      InOrderUnique(a[1..], b[1..]);
      assert a == [a[0]] + a[1..] && b == [b[0]] + b[1..];
    }
  }

  /** `rules` lists, in order, the broken rules among the first `k`. */
  ghost predicate CheckedUpTo(pw: string, rules: seq<Rule>, k: nat) {
    InOrder(rules) && forall r :: r in rules <==> Violated(Some(pw), r) && Rank(r) < k
  }

  /** The messages so far are those of the broken rules among the first `k`. */
  ghost predicate Tracked(pw: string, errors: seq<string>, rules: seq<Rule>, k: nat) {
    CheckedUpTo(pw, rules, k) && errors == AdminMessages(rules)
  }

  lemma SameRank(r: Rule, rule: Rule)
    requires Rank(r) == Rank(rule)
    ensures r == rule
  {
    match r
    case Length => case Upper => case Lower => case Digit => case Special =>
  }

  /** A broken rule is pushed after the ones before it. */
  lemma Pushed(pw: string, errors: seq<string>, rules: seq<Rule>, rule: Rule)
    requires Tracked(pw, errors, rules, Rank(rule)) && Violated(Some(pw), rule)
    ensures Tracked(pw, errors + [AdminMessage(rule)], rules + [rule], Rank(rule) + 1)
  {
    AppendMessage(rules, rule);
    forall r ensures r in rules + [rule] <==> Violated(Some(pw), r) && Rank(r) < Rank(rule) + 1 {
      if Rank(r) == Rank(rule) { SameRank(r, rule); }
    }
  }

  /** A rule that holds adds nothing. */
  lemma Skipped(pw: string, errors: seq<string>, rules: seq<Rule>, rule: Rule)
    requires Tracked(pw, errors, rules, Rank(rule)) && !Violated(Some(pw), rule)
    ensures Tracked(pw, errors, rules, Rank(rule) + 1)
  {
    forall r ensures r in rules <==> Violated(Some(pw), r) && Rank(r) < Rank(rule) + 1 {
      if Rank(r) == Rank(rule) { SameRank(r, rule); }
    }
  }

  /** Once every rule is tested, the messages are the script's answer. */
  lemma AllChecked(pw: string, errors: seq<string>, rules: seq<Rule>)
    requires Tracked(pw, errors, rules, 5)
    ensures errors == AdminErrors(pw)
  {
    InOrderUnique(rules, FailedRules(Some(pw)));
  }

  /** `validatePassword(pw)`: pushes one message per failed test. */
  method ValidatePassword(pw: string) returns (errors: seq<string>)
    ensures errors == AdminErrors(pw)
  {
    ghost var rules: seq<Rule> := [];
    errors := [];
    assert Tracked(pw, errors, rules, 0);
    if |pw| < 8 {
      Pushed(pw, errors, rules, Length);
      errors, rules := errors + [AdminMessage(Length)], rules + [Length];
    } else {
      Skipped(pw, errors, rules, Length);
    }
    if !HasUpper(pw) {
      Pushed(pw, errors, rules, Upper);
      errors, rules := errors + [AdminMessage(Upper)], rules + [Upper];
    } else {
      Skipped(pw, errors, rules, Upper);
    }
    if !HasLower(pw) {
      Pushed(pw, errors, rules, Lower);
      errors, rules := errors + [AdminMessage(Lower)], rules + [Lower];
    } else {
      Skipped(pw, errors, rules, Lower);
    }
    if !HasDigit(pw) {
      Pushed(pw, errors, rules, Digit);
      errors, rules := errors + [AdminMessage(Digit)], rules + [Digit];
    } else {
      Skipped(pw, errors, rules, Digit);
    }
    if !HasSpecial(pw) {
      Pushed(pw, errors, rules, Special);
      errors, rules := errors + [AdminMessage(Special)], rules + [Special];
    } else {
      Skipped(pw, errors, rules, Special);
    }
    AllChecked(pw, errors, rules);
  }

  // ---------------------------------------------------------------------
  // askPassword: the keystroke buffer
  // ---------------------------------------------------------------------

  const CTRL_C := "\U{0003}"
  const CTRL_D := "\U{0004}"
  const DEL := "\U{007F}"

  /** A chunk that resolves the prompt: exactly "\n", "\r" or Ctrl-D. */
  predicate Ends(chunk: string) {
    chunk == "\n" || chunk == "\r" || chunk == CTRL_D
  }

  /** A chunk with a meaning of its own rather than text to append. */
  predicate Control(chunk: string) {
    Ends(chunk) || chunk == CTRL_C || chunk == DEL
  }

  /** The buffer after a chunk that neither resolves nor exits: DEL drops
      the last character of a non-empty buffer, anything else is appended
      whole. */
  function Key(buffer: string, chunk: string): (b: string)
    ensures chunk == DEL ==> b <= buffer && |b| == (if buffer == [] then 0 else |buffer| - 1)
    ensures chunk != DEL ==> b == buffer + chunk
  {
    if chunk == DEL then (if |buffer| > 0 then buffer[..|buffer| - 1] else buffer)
    else buffer + chunk
  }

  /** DEL undoes a single typed character, and does nothing to an empty
      buffer. */
  lemma DelUndoesKeystroke(buffer: string, c: char)
    requires !Control([c])
    ensures Key(Key(buffer, [c]), DEL) == buffer
    ensures Key([], DEL) == []
  {
    assert Key(buffer, [c]) == buffer + [c];
    assert (buffer + [c])[..|buffer|] == buffer;
  }

  datatype ReaderState = Reading | Resolved | Exited

  /** The closure state of one `askPassword` call: the `password` buffer
      and whether the listener has resolved or the process has exited. */
  class PasswordReader {
    var buffer: string
    var state: ReaderState

    constructor ()
      ensures buffer == "" && state == Reading
    {
      buffer, state := "", Reading;
    }

    /** `onData(char)`; the listener is removed once it resolves. */
    method OnData(chunk: string)
      requires state == Reading
      modifies this
      ensures Ends(chunk) ==> state == Resolved && buffer == old(buffer)
      ensures chunk == CTRL_C ==> state == Exited && buffer == old(buffer)
      ensures !Ends(chunk) && chunk != CTRL_C ==> state == Reading && buffer == Key(old(buffer), chunk)
    {
      if Ends(chunk) {
        state := Resolved;
      } else if chunk == CTRL_C {
        state := Exited;
      } else if chunk == DEL {
        if |buffer| > 0 {
          buffer := buffer[..|buffer| - 1];
        }
      } else {
        buffer := buffer + chunk;
      }
    }
  }

  /** How a prompt ends: with text and the index of the next unread chunk,
      with the process exiting on Ctrl-C, or still waiting when the input
      runs out. */
  datatype Prompt = Entered(password: string, next: nat) | Interrupted | Unfinished

  /** The prompt's outcome when reading from chunk `i` with `buffer` typed. */
  function ReadFrom(chunks: seq<string>, i: nat, buffer: string): (p: Prompt)
    requires i <= |chunks|
    ensures p.Entered? ==> i < p.next <= |chunks| && Ends(chunks[p.next - 1])
    decreases |chunks| - i
  {
    if i == |chunks| then Unfinished
    else if Ends(chunks[i]) then Entered(buffer, i + 1)
    else if chunks[i] == CTRL_C then Interrupted
    else ReadFrom(chunks, i + 1, Key(buffer, chunks[i]))
  }

  /** `askPassword(question)` reading from chunk `start`. */
  method AskPassword(chunks: seq<string>, start: nat) returns (p: Prompt)
    requires start <= |chunks|
    ensures p == ReadFrom(chunks, start, "")
  {
    var reader := new PasswordReader();
    var i := start;
    while i < |chunks| && reader.state == Reading
      invariant start <= i <= |chunks|
      invariant reader.state == Reading ==> ReadFrom(chunks, start, "") == ReadFrom(chunks, i, reader.buffer)
      invariant reader.state == Resolved ==> i > start && ReadFrom(chunks, start, "") == Entered(reader.buffer, i)
      invariant reader.state == Exited ==> ReadFrom(chunks, start, "") == Interrupted
      decreases |chunks| - i
    {
      reader.OnData(chunks[i]);
      i := i + 1;
    }
    match reader.state
    case Reading => p := Unfinished;
    case Resolved => p := Entered(reader.buffer, i);
    case Exited => p := Interrupted;
  }

  /** One chunk per typed character. */
  function Keystrokes(text: string): (chunks: seq<string>)
    ensures |chunks| == |text| && forall i :: 0 <= i < |text| ==> chunks[i] == [text[i]]
  {
    seq(|text|, i requires 0 <= i < |text| => [text[i]])
  }

  /** Typing a text without control characters and pressing Enter enters
      exactly that text. */
  lemma TypedTextEntered(text: string)
    requires forall i :: 0 <= i < |text| ==> !Control([text[i]])
    ensures ReadFrom(Keystrokes(text) + ["\r"], 0, "") == Entered(text, |text| + 1)
  {
    TypedSuffix(text, 0);
  }

  lemma {:induction false} TypedSuffix(text: string, i: nat)
    requires i <= |text| && forall k :: 0 <= k < |text| ==> !Control([text[k]])
    ensures ReadFrom(Keystrokes(text) + ["\r"], i, text[..i]) == Entered(text, |text| + 1)
    decreases |text| - i
  {
    var chunks := Keystrokes(text) + ["\r"];
    if i == |text| {
      assert text[..i] == text;
      assert chunks[i] == "\r";
    } else {
      assert chunks[i] == [text[i]] && !Control(chunks[i]);
      assert Key(text[..i], chunks[i]) == text[..i + 1];
      TypedSuffix(text, i + 1);
    }
  }

  // ---------------------------------------------------------------------
  // main: the prompt/confirm loop
  // ---------------------------------------------------------------------

  /** The loop's outcome from chunk `i`: ask, reject a weak password and ask
      again, ask for the confirmation and start over when it differs. */
  function PromptFrom(chunks: seq<string>, i: nat): (p: Prompt)
    requires i <= |chunks|
    decreases |chunks| - i
  {
    var first := ReadFrom(chunks, i, "");
    if !first.Entered? then first
    else if AdminErrors(first.password) != [] then PromptFrom(chunks, first.next)
    else
      var confirm := ReadFrom(chunks, first.next, "");
      if !confirm.Entered? then confirm
      else if confirm.password == first.password then Entered(first.password, confirm.next)
      else PromptFrom(chunks, confirm.next)
  }

  /** The first prompt of a round ends the loop or restarts it. */
  lemma FirstPrompt(chunks: seq<string>, i: nat, first: Prompt)
    requires i <= |chunks| && first == ReadFrom(chunks, i, "")
    ensures !first.Entered? ==> PromptFrom(chunks, i) == first
    ensures first.Entered? && AdminErrors(first.password) != [] ==> PromptFrom(chunks, i) == PromptFrom(chunks, first.next)
  {
  }

  /** The confirmation of an accepted password ends the loop or restarts it. */
  lemma ConfirmPrompt(chunks: seq<string>, i: nat, first: Prompt, confirm: Prompt)
    requires i <= |chunks| && first == ReadFrom(chunks, i, "") && first.Entered? && AdminErrors(first.password) == []
    requires confirm == ReadFrom(chunks, first.next, "")
    ensures !confirm.Entered? ==> PromptFrom(chunks, i) == confirm
    ensures confirm.Entered? ==> PromptFrom(chunks, i) == (if confirm.password == first.password then Entered(first.password, confirm.next)
                                                           else PromptFrom(chunks, confirm.next))
  {
  }

  /** `while (true) { ... }` in `main`. */
  method PromptPassword(chunks: seq<string>) returns (p: Prompt)
    ensures p == PromptFrom(chunks, 0)
  {
    ghost var goal := PromptFrom(chunks, 0);
    var i := 0;
    while true
      invariant i <= |chunks| && PromptFrom(chunks, i) == goal
      decreases |chunks| - i
    {
      var password := AskPassword(chunks, i);
      if !password.Entered? {
        FirstPrompt(chunks, i, password);
        return password;
      }
      var errors := ValidatePassword(password.password);
      if |errors| > 0 {
        FirstPrompt(chunks, i, password);
        i := password.next;
      } else {
        var confirm := AskPassword(chunks, password.next);
        ConfirmPrompt(chunks, i, password, confirm);
        if !confirm.Entered? {
          return confirm;
        }
        if password.password != confirm.password {
          i := confirm.next;
        } else {
          return Entered(password.password, confirm.next);
        }
      }
    }
  }

  /** `pw` was entered from chunk `j` and then entered again as the
      confirmation, ending at chunk `n`. */
  predicate ConfirmedAt(chunks: seq<string>, pw: string, j: nat, n: nat) {
    j <= |chunks| && ReadFrom(chunks, j, "").Entered? && ReadFrom(chunks, j, "").password == pw
    && ReadFrom(chunks, ReadFrom(chunks, j, "").next, "") == Entered(pw, n)
  }

  /** The loop only ever yields an acceptable password that was typed the
      same way twice in a row. */
  lemma {:induction false} PromptSound(chunks: seq<string>, i: nat)
    requires i <= |chunks| && PromptFrom(chunks, i).Entered?
    ensures Acceptable(PromptFrom(chunks, i).password)
    ensures exists j :: i <= j && ConfirmedAt(chunks, PromptFrom(chunks, i).password, j, PromptFrom(chunks, i).next)
    decreases |chunks| - i
  {
    var first := ReadFrom(chunks, i, "");
    if AdminErrors(first.password) != [] {
      PromptSound(chunks, first.next);
    } else {
      var confirm := ReadFrom(chunks, first.next, "");
      if confirm.password == first.password {
        AdminErrorsEmptyIff(first.password);
        assert ConfirmedAt(chunks, first.password, i, confirm.next);
      } else {
        PromptSound(chunks, confirm.next);
      }
    }
  }

  /** An acceptable password confirmed right away ends the loop. */
  lemma PromptComplete(chunks: seq<string>, i: nat, pw: string, n: nat)
    requires ConfirmedAt(chunks, pw, i, n) && Acceptable(pw)
    ensures PromptFrom(chunks, i) == Entered(pw, n)
  {
    AdminErrorsEmptyIff(pw);
  }

  // ---------------------------------------------------------------------
  // main: the answers and the inserts
  // ---------------------------------------------------------------------

  /** `(await ask(...)).trim() || 'ops_root_x9A7'`. */
  function AdminUsername(answer: string): (u: string)
    ensures u != "" && !IsWhitespace(u[0])
    ensures Trim(answer) != "" ==> u == Trim(answer)
  {
    if Trim(answer) != "" then Trim(answer) else DEFAULT_USERNAME
  }

  /** A blank answer selects the suggested username. */
  lemma BlankUsernameDefaults(answer: string)
    requires forall i :: 0 <= i < |answer| ==> IsWhitespace(answer[i])
    ensures AdminUsername(answer) == DEFAULT_USERNAME
  {
    TrimEmptyIffBlank(answer);
  }

  /** `(await ask(...)).trim() || null` for the e-mail. */
  function OptionalAnswer(answer: string): (r: Option<string>)
    ensures r.None? <==> Trim(answer) == ""
    ensures r.Some? ==> r.value == Trim(answer)
  {
    if Trim(answer) == "" then None else Some(Trim(answer))
  }

  /** `SELECT id FROM users WHERE username = ? OR dni = ?`: deleted users
      included. */
  predicate LoginInUse(users: seq<User>, username: string, dni: string) {
    exists k :: 0 <= k < |users| && (users[k].username == username || users[k].dni == dni)
  }

  /** The first row of `SELECT id FROM roles WHERE nombre = ?`, as an index. */
  function FirstRoleNamed(roles: seq<Role>, nombre: string): (r: Option<nat>)
    ensures r.Some? ==> r.value < |roles| && roles[r.value].nombre == nombre
    ensures r.Some? ==> forall k :: 0 <= k < r.value ==> roles[k].nombre != nombre
    ensures r.None? ==> forall k :: 0 <= k < |roles| ==> roles[k].nombre != nombre
  {
    if roles == [] then None
    else if roles[0].nombre == nombre then Some(0)
    else
      var r := FirstRoleNamed(roles[1..], nombre);
      if r.Some? then Some(r.value + 1) else None
  }

  datatype AdminResult = AdminCreated(userId: int) | LoginTaken | NoAdminRole

  /** The inserted row; `activo` takes its column default, taken as true. */
  function AdminRow(username: string, nombre: string, apellidos: string, dni: string,
                    email: Option<string>, hash: string): User
  {
    User(username, hash, email, nombre, apellidos, dni, None, None, true, None)
  }

  /** The database part of `main`. */
  method CreateAdministrator(db: Accounts, username: string, nombre: string, apellidos: string, dni: string,
                             email: Option<string>, password: string, bcrypt: string -> string)
    returns (r: AdminResult)
    modifies db
    ensures var s := old(db.State());
            var role := FirstRoleNamed(s.roles, ADMINISTRADOR);
            && (LoginInUse(s.users, username, dni) ==> r == LoginTaken && db.State() == s)
            && (!LoginInUse(s.users, username, dni) && role.None? ==> r == NoAdminRole && db.State() == s)
            && (!LoginInUse(s.users, username, dni) && role.Some?
                ==> r == AdminCreated(|s.users| + 1)
                    && db.State()
                       == s.(users := s.users + [AdminRow(username, nombre, apellidos, dni, email, bcrypt(password))],
                             userRoles := s.userRoles + [UserRole(|s.users| + 1, role.value + 1, None)]))
  {
    if LoginInUse(db.users, username, dni) {
      return LoginTaken;
    }
    var hash := bcrypt(password);
    var role := FirstRoleNamed(db.roles, ADMINISTRADOR);
    if role.None? {
      return NoAdminRole;
    }
    db.users := db.users + [AdminRow(username, nombre, apellidos, dni, email, hash)];
    var userId := |db.users|;
    db.userRoles := db.userRoles + [UserRole(userId, role.value + 1, None)];
    return AdminCreated(userId);
  }

  /** The created account holds the administrator role, and the stricter
      duplicate check (deleted users included) keeps live logins unique. */
  lemma CreatedAdminIsAdministrator(s: AccountState, username: string, nombre: string, apellidos: string,
                                    dni: string, email: Option<string>, hash: string)
    requires !LoginInUse(s.users, username, dni) && FirstRoleNamed(s.roles, ADMINISTRADOR).Some?
    requires UsersController.UniqueLogins(s.users)
    ensures var id := |s.users| + 1;
            var rows := s.userRoles + [UserRole(id, FirstRoleNamed(s.roles, ADMINISTRADOR).value + 1, None)];
            ADMINISTRADOR in RoleNames(s.roles, rows, id)
            && UsersController.UniqueLogins(s.users + [AdminRow(username, nombre, apellidos, dni, email, hash)])
  {
    var id := |s.users| + 1;
    var rows := s.userRoles + [UserRole(id, FirstRoleNamed(s.roles, ADMINISTRADOR).value + 1, None)];
    assert rows[|s.userRoles|].userId == id;
    assert HoldsRow(s.roles, rows, id, ADMINISTRADOR);
    RoleNamesMembers(s.roles, rows, id, ADMINISTRADOR);
    var t := s.users + [AdminRow(username, nombre, apellidos, dni, email, hash)];
    forall i, j | 0 <= i < j < |t| && t[i].deletedAt.None? && t[j].deletedAt.None?
      ensures t[i].username != t[j].username && t[i].dni != t[j].dni
    {
      if j == |s.users| {
        assert t[i] == s.users[i];
      }
    }
  }
}
