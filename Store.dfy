/** The validation rules of the route handlers of backend/app.py, over an
    abstract store of users, threads, messages and feedback records.

    `Store` stands for the database: users by (normalised) e-mail, threads
    by id, each thread holding its messages in the order they were added and
    at most one feedback record. The authenticated caller is passed in as a
    user id (`None` when `current_user` found no valid token), and the
    patient reply of the language model, when one is configured, is passed
    in as a parameter. */
module Api {
  import opened Wrappers
  import opened Text
  import opened Rubric

  datatype User = User(id: nat, email: string, name: string, picture: string, hospital: string)

  datatype Thread = Thread(userId: nat, title: string, status: string, messages: seq<Msg>, feedback: Option<Feedback>)

  const NotFound := 404
  const Conflict := 409
  const BadRequest := 400
  const Unauthorized := 401

  /** `email.split("@")[0]`: everything before the first '@'. */
  function LocalPart(email: string): (r: string)
    ensures r <= email
    ensures forall i :: 0 <= i < |r| ==> r[i] != '@'
    ensures |r| < |email| ==> email[|r|] == '@'
  {
    if email == [] || email[0] == '@' then [] else [email[0]] + LocalPart(email[1..])
  }

  /** `(x or "")` for an optional request field. */
  function OrEmpty(x: Option<string>): string {
    x.GetOr("")
  }

  /** `dev_login`'s e-mail: trimmed, then lower-cased. */
  function LoginEmail(email: Option<string>): string {
    Lower(Trim(OrEmpty(email)))
  }

  /** `dev_login`'s hospital: trimmed. */
  function LoginHospital(hospital: Option<string>): string {
    Trim(OrEmpty(hospital))
  }

  /** `dev_login`'s name: the given one, or else the e-mail's local part,
      trimmed. */
  function LoginName(name: Option<string>, e: string): string {
    Trim(if OrEmpty(name) != "" then OrEmpty(name) else if e != "" then LocalPart(e) else "")
  }

  /** How many threads the user owns. */
  function OwnedCount(threads: map<nat, Thread>, uid: nat): nat {
    |set k | k in threads && threads[k].userId == uid|
  }

  /** Every stored message is the doctor's or the patient's. */
  predicate RolesOk(ms: seq<Msg>) {
    forall i :: 0 <= i < |ms| ==> ms[i].role == "doctor" || ms[i].role == "patient"
  }

  /** A thread's feedback record exists only once the thread is closed, and
      its messages carry valid roles. */
  predicate ThreadOk(t: Thread) {
    (t.feedback.Some? ==> t.status == "closed") && RolesOk(t.messages)
  }

  /** The doctor-facing part of `get_feedback`'s and `end_thread`'s lookup:
      the thread exists and belongs to the caller. */
  predicate Owns(threads: map<nat, Thread>, caller: nat, tid: nat) {
    tid in threads && threads[tid].userId == caller
  }

  /** Every thread id was handed out already and every thread is well
      formed. */
  predicate ThreadsOk(threads: map<nat, Thread>, nextThreadId: nat) {
    forall k :: k in threads ==> k < nextThreadId && ThreadOk(threads[k])
  }

  /** Users are stored under their own e-mail, with ids handed out
      already. */
  predicate UsersOk(users: map<string, User>, nextUserId: nat) {
    forall e :: e in users ==> users[e].email == e && users[e].id < nextUserId
  }

  /** The user record `dev_login` stores for the normalised e-mail `e`,
      hospital `h` and name `n`: a new user gets the next id, the name or
      "Doctor" when it is empty, and an empty picture; a known user keeps
      id, e-mail and picture, keeps the old name when the new one is empty,
      and takes the new hospital. */
  function LoginUser(users: map<string, User>, nextUserId: nat, e: string, h: string, n: string): (u: User)
    ensures e !in users ==> u == User(nextUserId, e, if n != "" then n else "Doctor", "", h)
    ensures e in users ==> u.id == users[e].id && u.email == users[e].email && u.picture == users[e].picture
    ensures e in users ==> u.name == (if n != "" then n else users[e].name) && u.hospital == h
  {
    if e in users then users[e].(name := if n != "" then n else users[e].name, hospital := h)
    else User(nextUserId, e, if n != "" then n else "Doctor", "", h)
  }

  /** Storing the login's user under its e-mail keeps the users well formed,
      with the next id moved past a new user's id. */
  lemma LoginUserOk(users: map<string, User>, nextUserId: nat, e: string, h: string, n: string)
    requires UsersOk(users, nextUserId)
    ensures UsersOk(users[e := LoginUser(users, nextUserId, e, h, n)], nextUserId + (if e in users then 0 else 1))
  {
  }

  class Store {
    var users: map<string, User>
    var threads: map<nat, Thread>
    var nextUserId: nat
    var nextThreadId: nat

    ghost predicate Valid()
      reads this
    {
      ThreadsOk(threads, nextThreadId) && UsersOk(users, nextUserId)
    }

    constructor ()
      ensures Valid()
      ensures users == map[] && threads == map[]
    {
      users := map[];
      threads := map[];
      nextUserId := 1;
      nextThreadId := 1;
    }

    /** `dev_login`: the e-mail is trimmed and lower-cased and the hospital
        trimmed; either being empty is a 400. Otherwise the user `LoginUser`
        describes is stored under the e-mail, and a new user takes the next
        id. */
    method DevLogin(email: Option<string>, hospital: Option<string>, name: Option<string>)
      returns (r: Result<User, int>)
      requires Valid()
      modifies this
      ensures Valid()
      ensures threads == old(threads) && nextThreadId == old(nextThreadId)
      ensures LoginEmail(email) == "" || LoginHospital(hospital) == "" ==>
                r == Err(BadRequest) && users == old(users) && nextUserId == old(nextUserId)
      ensures LoginEmail(email) != "" && LoginHospital(hospital) != "" ==>
                r == Ok(LoginUser(old(users), old(nextUserId), LoginEmail(email), LoginHospital(hospital),
                                  LoginName(name, LoginEmail(email)))) &&
                users == old(users)[LoginEmail(email) := r.value] &&
                nextUserId == old(nextUserId) + (if LoginEmail(email) in old(users) then 0 else 1)
    {
      var e := LoginEmail(email);
      var h := LoginHospital(hospital);
      var n := LoginName(name, e);
      if e == "" || h == "" {
        return Err(BadRequest);
      }
      var user := LoginUser(users, nextUserId, e, h, n);
      var next := nextUserId + (if e in users then 0 else 1);
      LoginUserOk(users, nextUserId, e, h, n);
      users := users[e := user];
      nextUserId := next;
      r := Ok(user);
    }

    /** `create_thread`: the trimmed title, or "Patient n+1" when it is
        blank, where n is how many threads the caller already owns; the new
        thread is open, empty and without feedback. */
    method CreateThread(caller: Option<nat>, title: Option<string>) returns (r: Result<nat, int>)
      requires Valid()
      modifies this
      ensures Valid()
      ensures users == old(users) && nextUserId == old(nextUserId)
      ensures caller.None? ==> r == Err(Unauthorized) && threads == old(threads) && nextThreadId == old(nextThreadId)
      ensures caller.Some? ==>
                var t := Trim(OrEmpty(title));
                var finalTitle := if t != "" then t else "Patient " + NatToString(OwnedCount(old(threads), caller.value) + 1);
                r == Ok(old(nextThreadId)) && old(nextThreadId) !in old(threads) &&
                threads == old(threads)[old(nextThreadId) := Thread(caller.value, finalTitle, "open", [], None)] &&
                nextThreadId == old(nextThreadId) + 1
    {
      if caller.None? {
        return Err(Unauthorized);
      }
      var t := Trim(OrEmpty(title));
      if t == "" {
        var count := OwnedCount(threads, caller.value);
        t := "Patient " + NatToString(count + 1);
      }
      var id := nextThreadId;
      threads := threads[id := Thread(caller.value, t, "open", [], None)];
      nextThreadId := nextThreadId + 1;
      r := Ok(id);
    }

    /** `post_message`: 404 for a thread the caller does not own, then 409
        for a closed thread before the payload is looked at, then 400 for a
        role other than doctor/patient or blank content. A valid post stores
        the trimmed content; a doctor's post also stores one patient reply
        (the model's, or the offline fallback reply when no model is
        configured), a patient's post none. The answer is the thread's whole
        message list. */
    method PostMessage(caller: Option<nat>, tid: nat, role: Option<string>, content: Option<string>,
                       modelReply: Option<string>) returns (r: Result<seq<Msg>, int>)
      requires Valid()
      modifies this
      ensures Valid()
      ensures users == old(users) && nextUserId == old(nextUserId) && nextThreadId == old(nextThreadId)
      ensures caller.None? ==> r == Err(Unauthorized)
      ensures caller.Some? && !Owns(old(threads), caller.value, tid) ==> r == Err(NotFound)
      ensures caller.Some? && Owns(old(threads), caller.value, tid) && old(threads)[tid].status == "closed" ==>
                r == Err(Conflict)
      ensures caller.Some? && Owns(old(threads), caller.value, tid) && old(threads)[tid].status != "closed" ==>
                var c := Trim(OrEmpty(content));
                if (role != Some("doctor") && role != Some("patient")) || c == "" then r == Err(BadRequest)
                else
                  var added := [Msg(role.value, c)] +
                    (if role.value == "doctor" then [Msg("patient", if modelReply.Some? then modelReply.value else FallbackReply(c))] else []);
                  r == Ok(old(threads)[tid].messages + added) &&
                  threads == old(threads)[tid := old(threads)[tid].(messages := r.value)]
      ensures r.Err? ==> threads == old(threads)
    {
      if caller.None? {
        return Err(Unauthorized);
      }
      if tid !in threads || threads[tid].userId != caller.value {
        return Err(NotFound);
      }
      var t := threads[tid];
      if t.status == "closed" {
        return Err(Conflict);
      }
      var c := Trim(OrEmpty(content));
      if (role != Some("doctor") && role != Some("patient")) || c == "" {
        return Err(BadRequest);
      }
      var added := [Msg(role.value, c)];
      if role.value == "doctor" {
        var reply := if modelReply.Some? then modelReply.value else FallbackReply(c);
        added := added + [Msg("patient", reply)];
      } else {
        assert added + [] == added;
      }
      var msgs := t.messages + added;
      threads := threads[tid := t.(messages := msgs)];
      r := Ok(msgs);
    }

    /** `get_feedback`: 404 unless the caller owns the thread, it is closed
        and it has a feedback record, which is then the answer. */
    function GetFeedback(caller: Option<nat>, tid: nat): (r: Result<Feedback, int>)
      reads this
      ensures r.Ok? <==> caller.Some? && Owns(threads, caller.value, tid) &&
                         threads[tid].status == "closed" && threads[tid].feedback.Some?
      ensures r.Ok? ==> r.value == threads[tid].feedback.value
      ensures r.Err? ==> r.error == (if caller.None? then Unauthorized else NotFound)
    {
      if caller.None? then Err(Unauthorized)
      else if tid !in threads || threads[tid].userId != caller.value then Err(NotFound)
      else if threads[tid].status != "closed" || threads[tid].feedback.None? then Err(NotFound)
      else Ok(threads[tid].feedback.value)
    }

    /** `end_thread`: 404 for a thread the caller does not own. A closed
        thread that already has feedback is answered with that feedback and
        left as it is. Otherwise the rubric of the thread's messages is
        computed, the thread closed, and its single feedback record created
        or overwritten; `get_feedback` then answers with that rubric. */
    method EndThread(caller: Option<nat>, tid: nat) returns (r: Result<Feedback, int>)
      requires Valid()
      modifies this
      ensures Valid()
      ensures users == old(users) && nextUserId == old(nextUserId) && nextThreadId == old(nextThreadId)
      ensures caller.None? ==> r == Err(Unauthorized)
      ensures caller.Some? && !Owns(old(threads), caller.value, tid) ==> r == Err(NotFound)
      ensures r.Err? ==> threads == old(threads)
      ensures caller.Some? && Owns(old(threads), caller.value, tid) ==>
                var t := old(threads)[tid];
                if t.status == "closed" && t.feedback.Some? then
                  r == Ok(t.feedback.value) && threads == old(threads)
                else
                  r == Ok(GenerateFeedback(t.messages)) &&
                  threads == old(threads)[tid := t.(status := "closed", feedback := Some(r.value))]
      ensures r.Ok? ==> GetFeedback(caller, tid) == r
    {
      if caller.None? {
        return Err(Unauthorized);
      }
      if tid !in threads || threads[tid].userId != caller.value {
        return Err(NotFound);
      }
      var t := threads[tid];
      if t.status == "closed" && t.feedback.Some? {
        return Ok(t.feedback.value);
      }
      var fb := GenerateFeedback(t.messages);
      threads := threads[tid := t.(status := "closed", feedback := Some(fb))];
      r := Ok(fb);
    }
  }

  /** A title that is blank after trimming is replaced by a non-blank
      default, so no thread is ever created with a blank title. */
  lemma DefaultTitleNotBlank(n: nat)
    ensures var title := "Patient " + NatToString(n);
            Trim(title) == title && title != []
  {
    var title := "Patient " + NatToString(n);
    var d := NatToString(n);
    assert title[0] == 'P';
    assert title[|title| - 1] == d[|d| - 1];
    assert IsDigit(d[|d| - 1]);
    TrimOfTrimmed(title);
  }
}
