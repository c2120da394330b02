/** The configuration update: check the protected field, merge, validate, store. */
module ConfigUpdate {
  import opened Options
  import opened ConfigMerge

  const SECTION := "emergency"
  const FIELD := "password_hash"
  const RESTART_REQUIRED := {"session_worker", "browsers"}

  datatype Outcome = Unauthorized | FieldProtected | CheckRaised | Rejected | Updated(restartRequired: bool)

  predicate HasPart(text: string, part: string) {
    exists i :: 0 <= i <= |text| && part <= text[i..]
  }

  /** `field in value`: a key of an object, a substring of a text, an element of a list; it raises otherwise. */
  function Contains(value: Json, field: string): Option<bool> {
    match value
    case Obj(fields) => Some(field in fields)
    case Text(text) => Some(HasPart(text, field))
    case List(items) => Some(Text(field) in items)
    case Scalar(_) => None
    case Null => None
  }

  function Decide(authorized: bool, request: map<string, Json>, valid: bool): Outcome {
    if !authorized then Unauthorized
    else if SECTION in request && Contains(request[SECTION], FIELD) == None then CheckRaised
    else if SECTION in request && Contains(request[SECTION], FIELD) == Some(true) then FieldProtected
    else if !valid then Rejected
    else Updated(request.Keys * RESTART_REQUIRED != {})
  }

  /** What the field check finds in the request's `emergency` section. */
  datatype Found = NoSection | Hash | NoHash | NotSearchable

  /** `password_hash` as a key of an object, a part of a text, or an item of a list. */
  ghost predicate Finds(request: map<string, Json>, found: Found) {
    if "emergency" !in request then found.NoSection? else
      match request["emergency"]
      case Obj(fields) => found == if "password_hash" in fields then Hash else NoHash
      case Text(text) =>
        found == if exists i, j :: 0 <= i <= j <= |text| && text[i..j] == "password_hash" then Hash else NoHash
      case List(items) => found == if Text("password_hash") in items then Hash else NoHash
      case Scalar(_) => found.NotSearchable?
      case Null => found.NotSearchable?
  }

  lemma PartMeaning(text: string, part: string)
    ensures HasPart(text, part) <==> exists i, j :: 0 <= i <= j <= |text| && text[i..j] == part
  {
    if i :| 0 <= i <= |text| && part <= text[i..] { assert text[i..i + |part|] == text[i..][..|part|] == part; }
    if i, j :| 0 <= i <= j <= |text| && text[i..j] == part { assert text[i..][..j - i] == part; }
  }

  function FoundIn(request: map<string, Json>): Found {
    if SECTION !in request then NoSection
    else
      match Contains(request[SECTION], FIELD)
      case None => NotSearchable
      case Some(present) => if present then Hash else NoHash
  }

  lemma FoundInFinds(request: map<string, Json>)
    ensures Finds(request, FoundIn(request))
    ensures forall found :: Finds(request, found) ==> found == FoundIn(request)
  {
    if SECTION in request && request[SECTION].Text? { PartMeaning(request[SECTION].text, FIELD); }
  }

  /** The outcome of an update, and nothing else can come out: first the password, then the field check, then the
      validator; a restart is asked for exactly when the request has one of the two sections that need it. */
  ghost predicate Comes(outcome: Outcome, authorized: bool, request: map<string, Json>, valid: bool) {
    && (outcome.Unauthorized? <==> !authorized)
    && (outcome.FieldProtected? <==> authorized && Finds(request, Hash))
    && (outcome.CheckRaised? <==> authorized && Finds(request, NotSearchable))
    && (outcome.Rejected? <==> authorized && !Finds(request, Hash) && !Finds(request, NotSearchable) && !valid)
    && (outcome.Updated? <==> authorized && !Finds(request, Hash) && !Finds(request, NotSearchable) && valid)
    && (outcome.Updated? ==>
          (outcome.restartRequired <==> "session_worker" in request || "browsers" in request))
  }

  lemma DecidedComes(authorized: bool, request: map<string, Json>, valid: bool)
    ensures Comes(Decide(authorized, request, valid), authorized, request, valid)
  {
    FoundInFinds(request);
    assert request.Keys * RESTART_REQUIRED != {} <==> "session_worker" in request || "browsers" in request by {
      var both := request.Keys * RESTART_REQUIRED;
      assert "session_worker" in request ==> "session_worker" in both;
      assert "browsers" in request ==> "browsers" in both;
      assert "session_worker" !in request && "browsers" !in request ==> both == {};
    }
  }

  class ConfigStore {
    var stored: map<string, Json>

    /** `authorized` is the outcome of the password check, `validates` the settings validator. */
    method UpdateConfig(authorized: bool, request: map<string, Json>, validates: map<string, Json> -> bool)
      returns (outcome: Outcome)
      modifies this
      ensures outcome == Decide(authorized, request, validates(Merge(old(stored), request)))
      ensures stored == if outcome.Updated? then Merge(old(stored), request) else old(stored)
      ensures Comes(outcome, authorized, request, validates(Merge(old(stored), request)))
    {
      DecidedComes(authorized, request, validates(Merge(stored, request)));
      if !authorized { return Unauthorized; }
      if SECTION in request {
        var present := Contains(request[SECTION], FIELD);
        if present.None? { return CheckRaised; }
        if present.value { return FieldProtected; }
      }
      var merged := DeepMerge(stored, request);
      if !validates(merged) { return Rejected; }
      stored := merged;
      return Updated(request.Keys * RESTART_REQUIRED != {});
    }
  }

  function PasswordHash(config: map<string, Json>): Option<Json> {
    Lookup(config, [SECTION, FIELD])
  }

  /** Exactly when an accepted update leaves the stored hash as it was: the request leaves the section
      out or gives it as an object, or there was no hash to lose. (The password check compares with
      the stored hash, so an authorised request finds one.) */
  lemma HashKeptIff(stored: map<string, Json>, request: map<string, Json>, valid: bool)
    requires Decide(true, request, valid).Updated?
    ensures PasswordHash(Merge(stored, request)) == PasswordHash(stored) <==>
            "emergency" !in request || request["emergency"].Obj? || PasswordHash(stored).None?
    ensures PasswordHash(stored) == Lookup(stored, ["emergency", "password_hash"])
  {
    var path := [SECTION, FIELD];
    MergeByPath(stored, request, path);
    BlockedStep(request, path);
    assert path[1..] == [FIELD];
    if SECTION in request && request[SECTION].Obj? {
      var fields := request[SECTION].fields;
      assert Contains(request[SECTION], FIELD) == Some(FIELD in fields) && FIELD !in fields;
      assert Lookup(request, path) == Lookup(fields, [FIELD]) == None;
      assert !Blocked(fields, [FIELD]);
    }
  }

  /** The condition is needed: a section given as a list passes the field check, so that only the settings
      validator decides, and if it accepts, the merge replaces the whole section. */
  lemma ListSectionReplacesAll(stored: map<string, Json>, items: seq<Json>, valid: bool)
    requires Text(FIELD) !in items
    ensures var request := map[SECTION := List(items)];
            && (Decide(true, request, valid).Updated? <==> valid)
            && PasswordHash(Merge(stored, request)).None?
  {
    var path, request := [SECTION, FIELD], map[SECTION := List(items)];
    assert Merge(stored, request)[SECTION] == List(items);
  }

  /** Everything the request does not mention, at any depth, is left as it was. */
  lemma UnmentionedIsKept(stored: map<string, Json>, request: map<string, Json>, path: seq<string>)
    requires path != [] && Lookup(request, path).None? && !Blocked(request, path)
    ensures Lookup(Merge(stored, request), path) == Lookup(stored, path)
  {
    MergeByPath(stored, request, path);
  }
}
