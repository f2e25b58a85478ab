/**
 * The role assigner's unit test (da-ayr-bag-role-assigner/test_lambda_function.py)
 * with the role map its lambda documents, and the two sides of the
 * department comparison.
 */
module RoleAssignerExample {
  import opened Wrappers
  import opened Text
  import opened Dicts
  import opened Json
  import opened Environ
  import opened BagFileMapper
  import opened BagRoleAssigner

  const TestDepartment := "Testing A"
  const TestRole := "department_a_role"

  /** A role map entry. */
  function Entry(department: string, role: string): Json {
    JObj([(KeyRoleMapBagDepartment, JStr(department)), (KeyRoleMapAyrRole, JStr(role))])
  }

  /** The role map list: one entry for Testing A. */
  function TestRoleMap(): Json {
    JArr([Entry(TestDepartment, TestRole)])
  }

  /** test_event_1's bag-info.txt up to its Source-Organization line; what follows is a parameter. */
  function TestBagInfo(department: string): Dict<Json> {
    [("Consignment-Type", JStr("standard")), ("Bag-Creator", JStr("TDRExportv0.0.166")),
     ("Consignment-Start-Datetime", JStr("2022-11-11T10:18:41Z")), ("Consignment-Series", JStr("TSTA 1")),
     (KeySourceOrganization, JStr(department))]
  }

  /** test_event_1: ayr_role None, the bag's URL, and bag_data with bag-info.txt and bagit.txt. */
  function TestEvent(department: string, bagInfoRest: Dict<Json>): Event {
    [(KeyAyrRole, JNull), (KeyBagS3Url, JStr("s3://...redacted.../ayr-in/TDR-2022-D6WD.tar.gz")),
     (KeyBagData, JObj([(BagInfoTxt, JObj(TestBagInfo(department) + bagInfoRest)), (BagitTxt, JObj([]))]))]
  }

  /** An entry's stripped bag_department and ayr_role are read back. */
  lemma EntryReads(department: string, role: string)
    ensures Department(Entry(department, role)) == Success(Strip(department))
    ensures Role(Entry(department, role)) == Success(Strip(role))
  {
    var fields := [(KeyRoleMapBagDepartment, JStr(department)), (KeyRoleMapAyrRole, JStr(role))];
    assert fields[0].0[0] != fields[1].0[0];
    LookupUnique(fields, 0);
    LookupUnique(fields, 1);
  }

  lemma TestEventReads(department: string, bagInfoRest: Dict<Json>)
    ensures var event := TestEvent(department, bagInfoRest);
      && UniqueKeys(event) && Keys(event) == EventKeys
      && SourceOrganization(event) == Success(JStr(department))
  {
    var event := TestEvent(department, bagInfoRest);
    assert event[0].0[0] != event[2].0[0] && event[1].0[4] != event[2].0[4] && event[0].0[0] != event[1].0[0];
    assert Keys(event) == EventKeys;
    LookupUnique(event, 2);
    var bagInfo := TestBagInfo(department) + bagInfoRest;
    assert bagInfo[4] == (KeySourceOrganization, JStr(department));
    assert forall j :: 0 <= j < 4 ==> bagInfo[j].0[0] != KeySourceOrganization[0];
    LookupFirst(bagInfo, KeySourceOrganization, 4);
  }

  /** With one entry for the bag's department, lambda_handler keeps three keys and sets that entry's role. */
  lemma AssignsEntryRole(department: string, role: string, bagInfoRest: Dict<Json>, env: Env)
    requires IsStripped(department)
    ensures var r := AssignRole(TestEvent(department, bagInfoRest), JArr([Entry(department, role)]), env);
      && r.Success? && Keys(r.value) == EventKeys
      && Lookup(r.value, KeyAyrRole) == Some(JStr(Strip(role)))
  {
    var event := TestEvent(department, bagInfoRest);
    var roleMap := JArr([Entry(department, role)]);
    TestEventReads(department, bagInfoRest);
    EntryReads(department, role);
    StripStripped(department);
    FindRoleFirstMatch(JStr(department), [Entry(department, role)], env, 0);
    AssignRoleResult(event, roleMap, env);
    AssignRoleKeeps(event, roleMap, env);
  }

  /**
   * test_expected_data: the record keeps exactly ayr_role, bag_s3_url and
   * bag_data, and its ayr_role becomes department_a_role, whatever follows
   * Source-Organization in bag-info.txt.
   */
  lemma TestExpectedData(bagInfoRest: Dict<Json>, env: Env)
    ensures var r := AssignRole(TestEvent(TestDepartment, bagInfoRest), TestRoleMap(), env);
      && r.Success? && |r.value| == 3
      && HasKey(r.value, KeyAyrRole) && HasKey(r.value, KeyBagS3Url) && HasKey(r.value, KeyBagData)
      && Lookup(r.value, KeyAyrRole) == Some(JStr(TestRole))
  {
    StripStripped(TestDepartment);
    StripStripped(TestRole);
    AssignsEntryRole(TestDepartment, TestRole, bagInfoRest, env);
  }

  /** Only the table side is stripped: a department with a leading space matches no entry. */
  lemma DepartmentNotTrimmed(department: string, role: string, env: Env)
    requires IsStripped(department) && EnvAyrRoleMapParamStoreKey in env
    ensures FindRole(JStr(" " + department), [Entry(department, role)], env)
         == Failure(UnmappedDepartment(" " + department))
  {
    EntryReads(department, role);
    StripStripped(department);
    assert |department| != |" " + department|;
    FindRoleUnmapped(JStr(" " + department), [Entry(department, role)], env);
  }

  /** The table side is stripped: an entry padded with spaces still matches. */
  lemma TableSideStripped(department: string, role: string, env: Env)
    requires IsStripped(department) && department != []
    ensures FindRole(JStr(department), [Entry(" " + department + " ", role)], env) == Success(Strip(role))
  {
    EntryReads(" " + department + " ", role);
    StripSurrounded(" ", department, " ");
    FindRoleFirstMatch(JStr(department), [Entry(" " + department + " ", role)], env, 0);
  }

  /** Both, for the test's department. */
  lemma TestDepartmentSides(env: Env)
    requires EnvAyrRoleMapParamStoreKey in env
    ensures FindRole(JStr(" " + TestDepartment), TestRoleMap().items, env) == Failure(UnmappedDepartment(" " + TestDepartment))
    ensures FindRole(JStr(TestDepartment), [Entry(" " + TestDepartment + " ", TestRole)], env) == Success(TestRole)
  {
    assert IsStripped(TestDepartment) && TestDepartment != [];
    StripStripped(TestRole);
    DepartmentNotTrimmed(TestDepartment, TestRole, env);
    TableSideStripped(TestDepartment, TestRole, env);
  }
}
