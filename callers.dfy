/**
 * The authenticated caller as the handlers see it: the user's row of the authentication table as
 * a dictionary from column name to value, with `None` for a SQL NULL.
 */
module Callers {
  import opened Wrappers
  import opened Text
  import opened Schemas
  import opened Store

  type Caller = map<string, Option<string>>

  /** `row.get(key)`: `None` both for a missing key and for a NULL column. */
  function Get(c: Caller, key: string): (r: Option<string>)
    ensures key !in c ==> r.None?
    ensures key in c ==> r == c[key]
  {
    if key in c then c[key] else None
  }

  /** The columns of the authentication table, which is what the authentication dependency returns. */
  predicate IsAuthRow(c: Caller) {
    c.Keys == {"username", "password", "type", "employee_id"}
  }

  /** A caller whose stored role is the value of `e`. */
  predicate HasRole(c: Caller, e: Etype) {
    Get(c, "type") == Some(EtypeValue(e))
  }

  /** The three stored role names, lower-cased as the role gates compare them. */
  lemma LoweredRoleNames()
    ensures Lower(EtypeValue(Agent)) == "agent"
    ensures Lower(EtypeValue(BranchManager)) == "branch manager"
    ensures Lower(EtypeValue(Admin)) == "admin"
  {
    assert Lower("Agent") == "agent" by {
      var s := Lower("Agent");
      assert s[0] == 'a' && s[1] == 'g' && s[2] == 'e' && s[3] == 'n' && s[4] == 't';
    }
    assert Lower("Branch Manager") == "branch manager" by {
      var s := Lower("Branch Manager");
      assert s[0] == 'b' && s[1] == 'r' && s[2] == 'a' && s[3] == 'n' && s[4] == 'c' && s[5] == 'h' && s[6] == ' ';
      assert s[7] == 'm' && s[8] == 'a' && s[9] == 'n' && s[10] == 'a' && s[11] == 'g' && s[12] == 'e' && s[13] == 'r';
    }
    assert Lower("Admin") == "admin" by {
      var s := Lower("Admin");
      assert s[0] == 'a' && s[1] == 'd' && s[2] == 'm' && s[3] == 'i' && s[4] == 'n';
    }
  }

  /** `row.get(key, "")`: the empty text for a missing key, `None` for a NULL column. */
  function GetOrEmpty(c: Caller, key: string): (r: Option<string>)
    ensures key !in c ==> r == Some("")
    ensures key in c ==> r == c[key]
  {
    if key in c then c[key] else Some("")
  }

  /**
   * The branch of the caller's employee row, looked up by the caller's `employee_id`: present only
   * when the row exists and its branch is neither NULL nor empty.
   */
  function CallerBranch(caller: Caller, employees: map<string, Employee>): (r: Option<string>)
    ensures r.Some? <==> Get(caller, "employee_id").Some? && Get(caller, "employee_id").value in employees
                         && employees[Get(caller, "employee_id").value].branchId.Some?
                         && employees[Get(caller, "employee_id").value].branchId.value != ""
    ensures r.Some? ==> employees[Get(caller, "employee_id").value].branchId == r
  {
    var id := Get(caller, "employee_id");
    if id.Some? && id.value in employees then
      var b := employees[id.value].branchId;
      if b.Some? && b.value != "" then b else None
    else None
  }
}
