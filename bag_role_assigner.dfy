/**
 * da-ayr-bag-role-assigner/lambda_function.py: looking up the bag's
 * Source-Organization in the ordered role map and writing the role found
 * into the record's ayr_role, in place.
 */
module BagRoleAssigner {
  import opened Wrappers
  import opened Text
  import opened Dicts
  import opened Json
  import opened Environ
  import opened BagFileMapper

  const EnvAyrRoleMapParamStoreKey := "AYR_ROLE_MAP_PARAM_STORE_KEY"

  const KeyAyrRole := "ayr_role"
  const KeyBagS3Url := "bag_s3_url"
  const KeyBagData := "bag_data"
  const KeySourceOrganization := "Source-Organization"

  const KeyRoleMapBagDepartment := "bag_department"
  const KeyRoleMapAyrRole := "ayr_role"

  /** The keys validate_event requires, in the order it checks them. */
  const EventKeys := [KeyAyrRole, KeyBagS3Url, KeyBagData]

  /** validate_event: the first required key that is missing is reported. */
  function ValidateEvent(event: Event): (r: Outcome)
    ensures r.Success? <==> forall i :: 0 <= i < |EventKeys| ==> HasKey(event, EventKeys[i])
    ensures r.Failure? ==>
      exists i :: && 0 <= i < |EventKeys|
                  && r.error == RoleAssignerError(EventKeys[i])
                  && !HasKey(event, EventKeys[i])
                  && forall j :: 0 <= j < i ==> HasKey(event, EventKeys[j])
  {
    assert EventKeys[0] == KeyAyrRole && EventKeys[1] == KeyBagS3Url && EventKeys[2] == KeyBagData;
    if !HasKey(event, KeyAyrRole) then Failure(RoleAssignerError(KeyAyrRole))
    else if !HasKey(event, KeyBagS3Url) then Failure(RoleAssignerError(KeyBagS3Url))
    else if !HasKey(event, KeyBagData) then Failure(RoleAssignerError(KeyBagData))
    else Success(())
  }

  // ---------------------------------------------------------------------
  // get_ayr_role

  /** str(role_map['bag_department']).strip() */
  function Department(entry: Json): (r: Result<string, Error>)
    ensures r.Success? ==> IsStripped(r.value)
    ensures r.Failure? ==> r.error.KeyError? || r.error.TypeError?
  {
    var d :- Member(entry, KeyRoleMapBagDepartment);
    Success(Strip(StrOf(d)))
  }

  /** str(role_map['ayr_role']).strip() */
  function Role(entry: Json): (r: Result<string, Error>)
    ensures r.Success? ==> IsStripped(r.value)
    ensures r.Failure? ==> r.error.KeyError? || r.error.TypeError?
  {
    var a :- Member(entry, KeyRoleMapAyrRole);
    Success(Strip(StrOf(a)))
  }

  /** The entry names target: the key read from it equals it. */
  predicate Matches(key: Json -> Result<string, Error>, entry: Json, target: Json) {
    key(entry).Success? && JStr(key(entry).value) == target
  }

  /** The loop reads the entry's key and moves past it: it differs from target. */
  predicate Passes(key: Json -> Result<string, Error>, entry: Json, target: Json) {
    key(entry).Success? && JStr(key(entry).value) != target
  }

  /**
   * The shape of get_ayr_role's loop: read each entry's key in turn, raise
   * what reading raises, return the value of the first entry whose key
   * equals target, and end with none.
   */
  function FirstMatch(key: Json -> Result<string, Error>, value: Json -> Result<string, Error>,
                      target: Json, entries: seq<Json>, none: Result<string, Error>): (r: Result<string, Error>)
    ensures (forall i :: 0 <= i < |entries| ==> Passes(key, entries[i], target)) ==> r == none
    ensures entries != [] && Matches(key, entries[0], target) ==> r == value(entries[0])
    decreases |entries|
  {
    if entries == [] then none
    else
      var k :- key(entries[0]);
      if JStr(k) == target then value(entries[0]) else FirstMatch(key, value, target, entries[1..], none)
  }

  /** One turn of the loop, at entry i. */
  lemma FirstMatchStep(key: Json -> Result<string, Error>, value: Json -> Result<string, Error>,
                       target: Json, entries: seq<Json>, none: Result<string, Error>, i: nat)
    requires i < |entries|
    ensures key(entries[i]).Failure? ==> FirstMatch(key, value, target, entries[i..], none) == Failure(key(entries[i]).error)
    ensures Matches(key, entries[i], target) ==> FirstMatch(key, value, target, entries[i..], none) == value(entries[i])
    ensures Passes(key, entries[i], target) ==>
      FirstMatch(key, value, target, entries[i..], none) == FirstMatch(key, value, target, entries[i + 1..], none)
  {
    assert entries[i..][0] == entries[i] && entries[i..][1..] == entries[i + 1..];
  }

  lemma {:induction false} FirstMatchAt(key: Json -> Result<string, Error>, value: Json -> Result<string, Error>,
                                        target: Json, entries: seq<Json>, none: Result<string, Error>, i: nat)
    requires i < |entries| && Matches(key, entries[i], target)
    requires forall j :: 0 <= j < i ==> Passes(key, entries[j], target)
    ensures FirstMatch(key, value, target, entries, none) == value(entries[i])
    decreases i
  {
    if i > 0 {
      assert Passes(key, entries[0], target);
      FirstMatchAt(key, value, target, entries[1..], none, i - 1);
    }
  }

  lemma {:induction false} FirstMatchFound(key: Json -> Result<string, Error>, value: Json -> Result<string, Error>,
                                           target: Json, entries: seq<Json>, none: Result<string, Error>)
    requires none.Failure? && FirstMatch(key, value, target, entries, none).Success?
    ensures exists i :: && 0 <= i < |entries| && Matches(key, entries[i], target)
                        && (forall j :: 0 <= j < i ==> Passes(key, entries[j], target))
                        && FirstMatch(key, value, target, entries, none) == value(entries[i])
    decreases |entries|
  {
    if !Matches(key, entries[0], target) {
      var rest := entries[1..];
      FirstMatchFound(key, value, target, rest, none);
      var i :| && 0 <= i < |rest| && Matches(key, rest[i], target)
               && (forall j :: 0 <= j < i ==> Passes(key, rest[j], target))
               && FirstMatch(key, value, target, rest, none) == value(rest[i]);
      assert entries[i + 1] == rest[i];
      forall j | 0 <= j < i + 1 ensures Passes(key, entries[j], target) {
        if j > 0 { assert entries[j] == rest[j - 1]; }
      }
    }
  }

  lemma {:induction false} FirstMatchNone(key: Json -> Result<string, Error>, value: Json -> Result<string, Error>,
                                          target: Json, entries: seq<Json>, none: Result<string, Error>)
    requires forall e: Json :: value(e) != none
    requires forall e: Json :: key(e).Failure? ==> Failure(key(e).error) != none
    ensures FirstMatch(key, value, target, entries, none) == none
        <==> forall j :: 0 <= j < |entries| ==> Passes(key, entries[j], target)
    decreases |entries|
  {
    if entries != [] {
      var rest := entries[1..];
      FirstMatchNone(key, value, target, rest, none);
      assert forall j :: 0 <= j < |rest| ==> rest[j] == entries[j + 1];
      if forall j :: 0 <= j < |rest| ==> Passes(key, rest[j], target) {
        forall j | 0 <= j < |entries| && Passes(key, entries[0], target) ensures Passes(key, entries[j], target) {
          if j > 0 { assert entries[j] == rest[j - 1]; }
        }
      }
    }
  }

  lemma {:induction false} FirstMatchPrefix(key: Json -> Result<string, Error>, value: Json -> Result<string, Error>,
                                            target: Json, entries: seq<Json>, more: seq<Json>, none: Result<string, Error>)
    requires none.Failure? && FirstMatch(key, value, target, entries, none).Success?
    ensures FirstMatch(key, value, target, entries + more, none) == FirstMatch(key, value, target, entries, none)
    decreases |entries|
  {
    var all := entries + more;
    assert all[0] == entries[0];
    if !Matches(key, entries[0], target) {
      assert all[1..] == entries[1..] + more;
      FirstMatchPrefix(key, value, target, entries[1..], more, none);
    }
  }

  /** The loop never yields bad when neither the end value nor any read can. */
  lemma {:induction false} FirstMatchAvoids(key: Json -> Result<string, Error>, value: Json -> Result<string, Error>,
                                            target: Json, entries: seq<Json>, none: Result<string, Error>, bad: Result<string, Error>)
    requires none != bad && forall e: Json :: value(e) != bad
    requires forall e: Json :: key(e).Failure? ==> Failure(key(e).error) != bad
    ensures FirstMatch(key, value, target, entries, none) != bad
    decreases |entries|
  {
    if entries != [] {
      FirstMatchAvoids(key, value, target, entries[1..], none, bad);
    }
  }

  /** The error raised after the loop; building its message reads the parameter-store key's variable. */
  function Unmapped(department: Json, env: Env): (r: Result<string, Error>)
    ensures r.Failure?
    ensures r.error.UnmappedDepartment? <==> EnvAyrRoleMapParamStoreKey in env
    ensures r.error.UnmappedDepartment? ==> r.error == UnmappedDepartment(StrOf(department))
    ensures !r.error.UnmappedDepartment? ==> r.error == KeyError(EnvAyrRoleMapParamStoreKey)
  {
    var _ :- Getenv(env, EnvAyrRoleMapParamStoreKey);
    Failure(UnmappedDepartment(StrOf(department)))
  }

  /** The loop of get_ayr_role over the entries of the role map list. */
  function FindRole(department: Json, entries: seq<Json>, env: Env): (r: Result<string, Error>)
    ensures (forall j :: 0 <= j < |entries| ==> Passes(Department, entries[j], department)) ==>
      r == Unmapped(department, env)
  {
    FirstMatch(Department, Role, department, entries, Unmapped(department, env))
  }

  /** get_ayr_role(department), for the role map list it loads. */
  function AyrRole(department: Json, roleMapList: Json, env: Env): (r: Result<string, Error>)
    ensures roleMapList.JArr? ==> r == FindRole(department, roleMapList.items, env)
    ensures (roleMapList.JNull? || roleMapList.JBool? || roleMapList.JInt?) ==> r == Failure(TypeError)
  {
    var entries :- Iterate(roleMapList);
    FindRole(department, entries, env)
  }

  /** get_ayr_role's loop, for any way of reading an entry's key and value. */
  method FirstMatchLoop(key: Json -> Result<string, Error>, value: Json -> Result<string, Error>,
                        target: Json, entries: seq<Json>, none: Result<string, Error>) returns (r: Result<string, Error>)
    ensures r == FirstMatch(key, value, target, entries, none)
  {
    var i := 0;
    while i < |entries|
      invariant 0 <= i <= |entries|
      invariant FirstMatch(key, value, target, entries[i..], none) == FirstMatch(key, value, target, entries, none)
    {
      FirstMatchStep(key, value, target, entries, none, i);
      var k := key(entries[i]);
      if k.Failure? {
        return Failure(k.error);
      }
      if JStr(k.value) == target {
        return value(entries[i]);
      }
      i := i + 1;
    }
    assert entries[i..] == [];
    return none;
  }

  method GetAyrRole(department: Json, roleMapList: Json, env: Env) returns (r: Result<string, Error>)
    ensures r == AyrRole(department, roleMapList, env)
  {
    var entries :- Iterate(roleMapList);
    r := FirstMatchLoop(Department, Role, department, entries, Unmapped(department, env));
  }

  /** The role of the first entry whose stripped bag_department equals department is returned, whatever follows. */
  lemma FindRoleFirstMatch(department: Json, entries: seq<Json>, env: Env, i: nat)
    requires i < |entries| && Matches(Department, entries[i], department)
    requires forall j :: 0 <= j < i ==> Passes(Department, entries[j], department)
    ensures FindRole(department, entries, env) == Role(entries[i])
  {
    FirstMatchAt(Department, Role, department, entries, Unmapped(department, env), i);
  }

  /**
   * No default role: a role returned is the stripped ayr_role of a matching
   * entry, every entry before which was read and did not match.
   */
  lemma FindRoleFound(department: Json, entries: seq<Json>, env: Env)
    requires FindRole(department, entries, env).Success?
    ensures exists i :: && 0 <= i < |entries| && Matches(Department, entries[i], department)
                        && (forall j :: 0 <= j < i ==> Passes(Department, entries[j], department))
                        && FindRole(department, entries, env) == Role(entries[i])
    ensures IsStripped(FindRole(department, entries, env).value)
  {
    FirstMatchFound(Department, Role, department, entries, Unmapped(department, env));
  }

  /** Reading an entry fails only with Python's KeyError or TypeError. */
  lemma EntryErrors(entry: Json)
    ensures Role(entry).Failure? ==> Role(entry).error.KeyError? || Role(entry).error.TypeError?
    ensures Department(entry).Failure? ==> Department(entry).error.KeyError? || Department(entry).error.TypeError?
  {
  }

  /**
   * Fail closed: the unmapped-department error is raised exactly when every
   * entry was read and none matched, and the message's variable is set.
   */
  lemma FindRoleUnmapped(department: Json, entries: seq<Json>, env: Env)
    ensures FindRole(department, entries, env) == Failure(UnmappedDepartment(StrOf(department)))
        <==> (forall j :: 0 <= j < |entries| ==> Passes(Department, entries[j], department)) && EnvAyrRoleMapParamStoreKey in env
  {
    var none := Unmapped(department, env);
    var unmapped := Failure(UnmappedDepartment(StrOf(department)));
    forall e: Json ensures Role(e) != unmapped && (Department(e).Failure? ==> Failure(Department(e).error) != unmapped) {
      EntryErrors(e);
    }
    if EnvAyrRoleMapParamStoreKey in env {
      FirstMatchNone(Department, Role, department, entries, none);
    } else {
      FirstMatchAvoids(Department, Role, department, entries, none, unmapped);
    }
  }

  /** Entries after a match are never looked at: later duplicates are ignored. */
  lemma FindRoleIgnoresLater(department: Json, entries: seq<Json>, more: seq<Json>, env: Env)
    requires FindRole(department, entries, env).Success?
    ensures FindRole(department, entries + more, env) == FindRole(department, entries, env)
  {
    FirstMatchPrefix(Department, Role, department, entries, more, Unmapped(department, env));
  }

  // ---------------------------------------------------------------------
  // lambda_handler

  /** event['bag_data']['bag-info.txt']['Source-Organization'] */
  function SourceOrganization(event: Event): (r: Result<Json, Error>)
    ensures r.Failure? ==> r.error.KeyError? || r.error == TypeError
    ensures r.Success? ==> var bagData := Lookup(event, KeyBagData);
      && bagData.Some? && bagData.value.JObj?
      && var bagInfo := Lookup(bagData.value.fields, BagInfoTxt);
      && bagInfo.Some? && bagInfo.value.JObj?
      && Lookup(bagInfo.value.fields, KeySourceOrganization) == Some(r.value)
  {
    var bagData :- At(event, KeyBagData);
    var bagInfo :- Member(bagData, BagInfoTxt);
    Member(bagInfo, KeySourceOrganization)
  }

  /** The event lambda_handler returns: ayr_role set to the role of the bag's department. */
  function AssignRole(event: Event, roleMapList: Json, env: Env): (r: Result<Event, Error>)
    ensures ValidateEvent(event).Failure? ==> r == Failure(ValidateEvent(event).error)
    ensures r.Success? ==> Keys(r.value) == Keys(event)
    ensures r.Success? ==> Lookup(r.value, KeyAyrRole).Some? && Lookup(r.value, KeyAyrRole).value.JStr?
  {
    var _ :- ValidateEvent(event);
    var department :- SourceOrganization(event);
    var role :- AyrRole(department, roleMapList, env);
    assert HasKey(event, KeyAyrRole) by {
      assert EventKeys[0] == KeyAyrRole;
    }
    PutExisting(event, KeyAyrRole, JStr(role));
    PutLookup(event, KeyAyrRole, JStr(role), KeyAyrRole);
    Success(Put(event, KeyAyrRole, JStr(role)))
  }

  /** Setting a key the dict already holds keeps its keys, their order and every other value. */
  lemma PutExisting(event: Event, k: string, v: Json)
    requires HasKey(event, k)
    ensures Keys(Put(event, k, v)) == Keys(event)
    ensures forall k' :: k' != k ==> Lookup(Put(event, k, v), k') == Lookup(event, k')
    ensures UniqueKeys(event) ==> UniqueKeys(Put(event, k, v))
  {
    if UniqueKeys(event) {
      PutUnique(event, k, v);
    }
    forall k' | k' != k
      ensures Lookup(Put(event, k, v), k') == Lookup(event, k')
    {
      PutLookup(event, k, v, k');
    }
  }

  /** lambda_handler changes only ayr_role: the other keys, their values and the key order stay. */
  lemma AssignRoleKeeps(event: Event, roleMapList: Json, env: Env)
    requires AssignRole(event, roleMapList, env).Success?
    ensures Keys(AssignRole(event, roleMapList, env).value) == Keys(event)
    ensures forall k :: k != KeyAyrRole ==> Lookup(AssignRole(event, roleMapList, env).value, k) == Lookup(event, k)
    ensures UniqueKeys(event) ==> UniqueKeys(AssignRole(event, roleMapList, env).value)
  {
    var role := AyrRole(SourceOrganization(event).value, roleMapList, env).value;
    assert HasKey(event, KeyAyrRole) by {
      assert EventKeys[0] == KeyAyrRole;
    }
    PutExisting(event, KeyAyrRole, JStr(role));
  }

  /** When the handler succeeds, and with which role. */
  lemma AssignRoleResult(event: Event, roleMapList: Json, env: Env)
    ensures AssignRole(event, roleMapList, env).Success?
        <==> && ValidateEvent(event).Success? && SourceOrganization(event).Success?
             && AyrRole(SourceOrganization(event).value, roleMapList, env).Success?
    ensures AssignRole(event, roleMapList, env).Success? ==>
      Lookup(AssignRole(event, roleMapList, env).value, KeyAyrRole)
        == Some(JStr(AyrRole(SourceOrganization(event).value, roleMapList, env).value))
  {
    if AssignRole(event, roleMapList, env).Success? {
      PutLookup(event, KeyAyrRole, JStr(AyrRole(SourceOrganization(event).value, roleMapList, env).value), KeyAyrRole);
    }
  }

  /** A Python dict object that the handler updates in place. */
  class EventDict {
    var entries: Event

    constructor (entries: Event)
      ensures this.entries == entries
    {
      this.entries := entries;
    }
  }

  /** lambda_handler: sets event['ayr_role'] and returns the same event object; a failure leaves it untouched. */
  method LambdaHandler(event: EventDict, roleMapList: Json, env: Env) returns (r: Result<EventDict, Error>)
    modifies event
    ensures var spec := AssignRole(old(event.entries), roleMapList, env);
      && (spec.Success? ==> r == Success(event) && event.entries == spec.value)
      && (spec.Failure? ==> r == Failure(spec.error) && event.entries == old(event.entries))
  {
    var valid := ValidateEvent(event.entries);
    if valid.Failure? {
      return Failure(valid.error);
    }
    var sourceOrganization :- SourceOrganization(event.entries);
    var role :- GetAyrRole(sourceOrganization, roleMapList, env);
    event.entries := Put(event.entries, KeyAyrRole, JStr(role));
    return Success(event);
  }
}
