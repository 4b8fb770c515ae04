/**
  Employee login credentials: the code set of `_collect_existing_codes`
  (app.py:3433-3443), the retry loop of `_generate_employee_login_code`
  (app.py:3446-3465), `_generate_employee_pin` (app.py:3427-3430) and the
  validation of the `credentials_update` action (app.py:4990-5011).

  The employee table is a map from id to record. A PIN is stored as the PIN
  itself: the password hash of the source is a one-way function of it and is
  not part of this model.
*/
module Credentials {
  import opened Wrappers
  import opened Text

  datatype Employee = Employee(
    name: string,
    role: string,
    loginEmail: Option<string>,
    loginCode: Option<string>,
    pin: Option<string>)

  /** How a stored code is compared: trimmed and lower-cased; "" for none. */
  function CodeKey(code: Option<string>): string {
    match code
    case None => ""
    case Some(c) => Lower(Strip(c))
  }

  /** The keys of the non-empty codes of the employees in `ids`, except `exclude`. */
  function CodesAmong(staff: map<int, Employee>, ids: set<int>, exclude: Option<int>): set<string> {
    set id | id in ids && id in staff && exclude != Some(id) && CodeKey(staff[id].loginCode) != ""
      :: CodeKey(staff[id].loginCode)
  }

  /** Visiting one more employee adds its key, when it has one and is not excluded. */
  lemma CodesAmongAdd(staff: map<int, Employee>, ids: set<int>, id: int, exclude: Option<int>)
    requires id in staff
    ensures CodesAmong(staff, ids + {id}, exclude)
         == CodesAmong(staff, ids, exclude)
            + (if exclude != Some(id) && CodeKey(staff[id].loginCode) != "" then {CodeKey(staff[id].loginCode)} else {})
  {
  }

  lemma SomePendingId(ids: set<int>)
    requires ids != {}
    ensures exists id :: id in ids
  {
    if forall id :: id !in ids {
      assert false;
    }
  }

  /** What `_collect_existing_codes(db, exclude_id)` returns. */
  function ExistingCodes(staff: map<int, Employee>, exclude: Option<int>): set<string> {
    CodesAmong(staff, staff.Keys, exclude)
  }

  /** No two employees share a non-empty code, compared case-insensitively. */
  predicate UniqueCodes(staff: map<int, Employee>) {
    forall a, b | a in staff && b in staff && a != b && CodeKey(staff[a].loginCode) != "" ::
      CodeKey(staff[a].loginCode) != CodeKey(staff[b].loginCode)
  }

  /** With unique codes, a key outside the others' codes is free for `id` to take. */
  lemma ExistingCodesExcludeOthers(staff: map<int, Employee>, id: int, key: string)
    requires key != "" && key !in ExistingCodes(staff, Some(id))
    ensures forall other | other in staff && other != id :: CodeKey(staff[other].loginCode) != key
  {
    forall other | other in staff && other != id && CodeKey(staff[other].loginCode) != ""
      ensures CodeKey(staff[other].loginCode) in ExistingCodes(staff, Some(id))
    {
    }
  }

  // ---------------------------------------------------------------------------
  // Generating a login code

  /** `re.sub(r"[^A-Za-z]", "", name)`. */
  function Letters(name: string): string {
    if name == [] then []
    else Letters(name[..|name| - 1]) + (if IsAsciiLetter(name[|name| - 1]) then [name[|name| - 1]] else [])
  }

  lemma {:induction false} LettersAreLetters(name: string)
    ensures forall i | 0 <= i < |Letters(name)| :: IsAsciiLetter(Letters(name)[i])
    ensures Letters(name) == [] <==> forall i | 0 <= i < |name| :: !IsAsciiLetter(name[i])
  {
    if name != [] {
      var init := name[..|name| - 1];
      LettersAreLetters(init);
      assert forall i | 0 <= i < |init| :: name[i] == init[i];
    }
  }

  /** The letters of the name, upper-cased, cut or padded from "TEAM" to three; "TEAM" without any. */
  function NamePrefix(name: string): string {
    var base := Upper(Letters(name));
    if |base| >= 3 then base[..3]
    else if base != [] then (base + "TEAM")[..3]
    else "TEAM"
  }

  /**
    The prefix is made of upper-case letters, is "TEAM" exactly when the name
    has no letter, and otherwise has three letters starting with the name's
    first (at most three) letters.
  */
  lemma NamePrefixSpec(name: string)
    ensures forall i | 0 <= i < |NamePrefix(name)| :: IsUpperLetter(NamePrefix(name)[i])
    ensures NamePrefix(name) == "TEAM" <==> forall i | 0 <= i < |name| :: !IsAsciiLetter(name[i])
    ensures NamePrefix(name) != "TEAM" ==>
      |NamePrefix(name)| == 3 && forall i | 0 <= i < 3 && i < |Letters(name)| :: NamePrefix(name)[i] == UpperChar(Letters(name)[i])
  {
    LettersAreLetters(name);
    var base := Upper(Letters(name));
    assert forall i | 0 <= i < |base| :: IsUpperLetter(base[i]);
    if 0 < |base| < 3 {
      var p := (base + "TEAM")[..3];
      assert forall i | |base| <= i < 3 :: p[i] == "TEAM"[i - |base|];
    }
  }

  /** The prefix of the attempt numbered `attempt`: "PXF" once more than 20 attempts have collided. */
  function AttemptPrefix(name: string, attempt: nat): string {
    if attempt > 20 then "PXF" else NamePrefix(name)
  }

  /** The code tried at attempt `attempt` with the drawn three-digit suffix. */
  function AttemptCode(name: string, attempt: nat, suffix: string): string {
    AttemptPrefix(name, attempt) + suffix
  }

  /** A three-digit suffix as `secrets.choice` draws it. */
  predicate IsSuffix(s: string) {
    |s| == 3 && AllDigits(s)
  }

  /**
    `_generate_employee_login_code`. The random suffixes are the sequence
    `draws`; the source draws until a code is free, and when `draws` runs out
    first the result is `None`. The code set is passed in and the grown set
    returned.
  */
  method GenerateLoginCode(name: string, existing: set<string>, draws: seq<string>)
    returns (code: Option<string>, updated: set<string>)
    requires forall i | 0 <= i < |draws| :: IsSuffix(draws[i])
    ensures code.Some? ==>
      && Lower(code.value) !in existing
      && updated == existing + {Lower(code.value)}
      && exists i | 0 <= i < |draws| ::
           code.value == AttemptCode(name, i, draws[i])
           && forall j | 0 <= j < i :: Lower(AttemptCode(name, j, draws[j])) in existing
    ensures code.None? ==>
      updated == existing && forall j | 0 <= j < |draws| :: Lower(AttemptCode(name, j, draws[j])) in existing
  {
    updated := existing;
    var prefix := NamePrefix(name);
    var attempt := 0;
    while attempt < |draws|
      invariant 0 <= attempt <= |draws|
      invariant prefix == AttemptPrefix(name, attempt)
      invariant forall j | 0 <= j < attempt :: Lower(AttemptCode(name, j, draws[j])) in existing
    {
      var candidate := prefix + draws[attempt];
      var key := Lower(candidate);
      if key !in existing {
        updated := existing + {key};
        return Some(candidate), updated;
      }
      attempt := attempt + 1;
      if attempt > 20 {
        prefix := "PXF";
      }
    }
    return None, updated;
  }

  /** A generated code has no surrounding spaces, so it is stored and collected under the key it was checked with. */
  lemma GeneratedCodeKey(name: string, attempt: nat, suffix: string)
    requires IsSuffix(suffix)
    ensures CodeKey(Some(AttemptCode(name, attempt, suffix))) == Lower(AttemptCode(name, attempt, suffix))
    ensures |AttemptCode(name, attempt, suffix)| == |AttemptPrefix(name, attempt)| + 3
  {
    NamePrefixSpec(name);
    var c := AttemptCode(name, attempt, suffix);
    assert forall i | 0 <= i < |c| :: !IsSpace(c[i]) by {
      forall i | 0 <= i < |c| ensures !IsSpace(c[i]) {
        if i >= |AttemptPrefix(name, attempt)| {
          assert c[i] == suffix[i - |AttemptPrefix(name, attempt)|];
        }
      }
    }
    StripOfSpaceFree(c);
  }

  /** `_generate_employee_pin`: `max(4, length)` random decimal digits. */
  method GeneratePin(length: int) returns (pin: string)
    ensures |pin| == if length > 4 then length else 4
    ensures AllDigits(pin)
  {
    var n := if length > 4 then length else 4;
    pin := [];
    while |pin| < n
      invariant |pin| <= n
      invariant AllDigits(pin)
    {
      assert IsDigit('0');
      var d: char :| IsDigit(d);
      pin := pin + [d];
    }
  }

  // ---------------------------------------------------------------------------
  // The `credentials_update` action

  datatype CredentialOutcome =
    | NoSuchEmployee
    | CodeRequired
    | CodeInUse
    | PinNotFourDigits
    | Saved(pinChanged: bool)

  /** A new PIN: exactly four decimal digits. */
  predicate IsPin(pin: string) {
    |pin| == 4 && AllDigits(pin)
  }

  /**
    The outcome of `credentials_update` for employee `id` with the three form
    fields, and the table afterwards. A refused PIN returns before the commit,
    so the code and email assigned just before it are discarded with the session.
  */
  function UpdatedCredentials(staff: map<int, Employee>, id: int, emailField: string, codeField: string, pinField: string)
    : (CredentialOutcome, map<int, Employee>)
  {
    if id !in staff then (NoSuchEmployee, staff)
    else
      var email := Strip(emailField);
      var code := Upper(Strip(codeField));
      var pin := Strip(pinField);
      if code == [] then (CodeRequired, staff)
      else if Lower(code) in ExistingCodes(staff, Some(id)) then (CodeInUse, staff)
      else if pin != [] && !IsPin(pin) then (PinNotFourDigits, staff)
      else
        var e := staff[id];
        var saved := e.(
          loginCode := Some(code),
          loginEmail := if email == [] then None else Some(email),
          pin := if pin == [] then e.pin else Some(pin));
        (Saved(pin != []), staff[id := saved])
  }

  /** The stored code is the upper-cased field, and its key is the field's key. */
  lemma {:induction false} SavedCodeKey(codeField: string)
    ensures CodeKey(Some(Upper(Strip(codeField)))) == Lower(Strip(codeField))
    ensures Lower(Upper(Strip(codeField))) == Lower(Strip(codeField))
  {
    StripIsTrimmed(codeField);
    UpperKeepsTrimmed(Strip(codeField));
    StripOfTrimmed(Upper(Strip(codeField)));
    LowerOfUpper(Strip(codeField));
  }

  /**
    The update is saved exactly when the employee exists, the code is
    non-empty and not another employee's, and the PIN field is blank or four
    digits; otherwise nothing changes.
  */
  lemma UpdatedCredentialsOutcome(staff: map<int, Employee>, id: int, emailField: string, codeField: string, pinField: string)
    ensures UpdatedCredentials(staff, id, emailField, codeField, pinField).0.Saved? <==>
      && id in staff
      && Strip(codeField) != []
      && Lower(Strip(codeField)) !in ExistingCodes(staff, Some(id))
      && (Strip(pinField) == [] || IsPin(Strip(pinField)))
    ensures !UpdatedCredentials(staff, id, emailField, codeField, pinField).0.Saved? ==>
      UpdatedCredentials(staff, id, emailField, codeField, pinField).1 == staff
  {
    SavedCodeKey(codeField);
  }

  /**
    A saved update changes only employee `id`: its code becomes the trimmed,
    upper-cased field, its email the trimmed field or none, and its PIN the
    new one when one was given.
  */
  lemma UpdatedCredentialsChanges(staff: map<int, Employee>, id: int, emailField: string, codeField: string, pinField: string)
    requires UpdatedCredentials(staff, id, emailField, codeField, pinField).0.Saved?
    ensures var after := UpdatedCredentials(staff, id, emailField, codeField, pinField).1;
      && after.Keys == staff.Keys
      && (forall other | other in staff && other != id :: after[other] == staff[other])
      && after[id].name == staff[id].name && after[id].role == staff[id].role
      && after[id].loginCode == Some(Upper(Strip(codeField)))
      && after[id].loginEmail == (if Strip(emailField) == [] then None else Some(Strip(emailField)))
      && after[id].pin == (if Strip(pinField) == [] then staff[id].pin else Some(Strip(pinField)))
  {
  }

  /** `credentials_update` never lets two employees share a code. */
  lemma UpdatedCredentialsKeepUniqueCodes(staff: map<int, Employee>, id: int, emailField: string, codeField: string, pinField: string)
    requires UniqueCodes(staff)
    ensures UniqueCodes(UpdatedCredentials(staff, id, emailField, codeField, pinField).1)
  {
    var r := UpdatedCredentials(staff, id, emailField, codeField, pinField);
    if r.0.Saved? {
      var after := r.1;
      var key := Lower(Strip(codeField));
      SavedCodeKey(codeField);
      assert key != "" by {
        assert |Upper(Strip(codeField))| == |Strip(codeField)|;
      }
      ExistingCodesExcludeOthers(staff, id, key);
      assert CodeKey(after[id].loginCode) == key;
      forall a, b | a in after && b in after && a != b && CodeKey(after[a].loginCode) != ""
        ensures CodeKey(after[a].loginCode) != CodeKey(after[b].loginCode)
      {
        if a != id && b != id {
          assert after[a] == staff[a] && after[b] == staff[b];
        }
      }
    }
  }

  /** The employee table, updated in place by the admin routes. */
  class StaffDirectory {
    var employees: map<int, Employee>

    constructor (staff: map<int, Employee>)
      ensures employees == staff
    {
      employees := staff;
    }

    /** `_collect_existing_codes`: one pass over the table. */
    method CollectExistingCodes(exclude: Option<int>) returns (codes: set<string>)
      ensures codes == ExistingCodes(employees, exclude)
    {
      codes := {};
      var pending := employees.Keys;
      while pending != {}
        invariant pending <= employees.Keys
        invariant codes == CodesAmong(employees, employees.Keys - pending, exclude)
        decreases pending
      {
        SomePendingId(pending);
        var id :| id in pending;
        var key := CodeKey(employees[id].loginCode);
        CodesAmongAdd(employees, employees.Keys - pending, id, exclude);
        if exclude != Some(id) && key != "" {
          codes := codes + {key};
        }
        assert employees.Keys - (pending - {id}) == (employees.Keys - pending) + {id};
        pending := pending - {id};
      }
    }

    /** The `credentials_update` action on employee `id`. */
    method UpdateCredentials(id: int, emailField: string, codeField: string, pinField: string)
      returns (outcome: CredentialOutcome)
      modifies this
      ensures (outcome, employees) == UpdatedCredentials(old(employees), id, emailField, codeField, pinField)
    {
      if id !in employees {
        return NoSuchEmployee;
      }
      var email := Strip(emailField);
      var code := Upper(Strip(codeField));
      var pin := Strip(pinField);
      if code == [] {
        return CodeRequired;
      }
      var existing := CollectExistingCodes(Some(id));
      if Lower(code) in existing {
        return CodeInUse;
      }
      if pin != [] && !IsPin(pin) {
        return PinNotFourDigits;
      }
      var e := employees[id];
      employees := employees[id := e.(
        loginCode := Some(code),
        loginEmail := if email == [] then None else Some(email),
        pin := if pin == [] then e.pin else Some(pin))];
      outcome := Saved(pin != []);
    }
  }
}
