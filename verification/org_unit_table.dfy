/**
 The `googledirectory_org_unit` table: a single, unpaged `Orgunits.List`
 for the caller's own account and a `Orgunits.Get` by id or path. The
 table has no error classifier, so every upstream error reaches the host
 unchanged.
 */
module OrgUnitTable {
  import opened Common
  import opened Paging

  /** An organisational unit as the table streams it; the rest of its
      fields pass through unexamined. */
  datatype OrgUnit = OrgUnit(orgUnitId: string, orgUnitPath: string)

  /** What `listDirectoryOrgUnits` did: the customer it asked for, the
      units it streamed and the error it returned. */
  datatype OrgUnitList = OrgUnitList(customer: string, rows: seq<OrgUnit>, err: Option<Error>)

  /** `listDirectoryOrgUnits` against the upstream reply `reply`. */
  function ListOrgUnits(reply: Reply<seq<OrgUnit>>): (r: OrgUnitList)
    ensures r.customer == MyCustomer
    ensures reply.Ok? ==> r.rows == reply.value && r.err.None?
    ensures reply.Err? ==> r.rows == [] && r.err == Some(reply.error)
  {
    match reply
    case Ok(units) => OrgUnitList(MyCustomer, units, None)
    case Err(e) => OrgUnitList(MyCustomer, [], Some(e))
  }

  /** The single reply as a one-page listing. */
  function AsPage(reply: Reply<seq<OrgUnit>>): PageReply<OrgUnit>
  {
    match reply
    case Ok(units) => Page(units)
    case Err(e) => PageFailed(e)
  }

  /** The unpaged list is the uncancellable paging loop over a listing of
      exactly one page. */
  lemma ListOrgUnitsIsOnePage(reply: Reply<seq<OrgUnit>>)
    ensures ListOrgUnits(reply).rows == StreamEvery([AsPage(reply)]).rows
    ensures ListOrgUnits(reply).err == StreamEvery([AsPage(reply)]).err
  {
    var s := StreamEvery([AsPage(reply)]);
    if reply.Ok? {
      assert AllPages([AsPage(reply)]);
      assert PageItems([AsPage(reply)]) == reply.value + PageItems([]);
    } else {
      assert [AsPage(reply)][..0] == [];
    }
  }

  /** `getDirectoryOrgUnit`: no lookup when org_unit_id and org_unit_path
      are both blank; otherwise one `Orgunits.Get` for `my_customer` by id,
      or by path when id is blank; its error is returned unchanged. */
  function GetOrgUnit(eq: EqualsQuals, fetch: (string, string) -> Reply<OrgUnit>): (r: GetRun<(string, string), OrgUnit>)
    ensures QualString(eq, "org_unit_id") == "" && QualString(eq, "org_unit_path") == "" ==> r == GetRun([], NoItem)
    ensures QualString(eq, "org_unit_id") != "" ==> r.calls == [(MyCustomer, QualString(eq, "org_unit_id"))]
    ensures QualString(eq, "org_unit_id") == "" && QualString(eq, "org_unit_path") != "" ==>
              r.calls == [(MyCustomer, QualString(eq, "org_unit_path"))]
    ensures |r.calls| == 1 && fetch(r.calls[0].0, r.calls[0].1).Err? ==> r.outcome == GetFailed(fetch(r.calls[0].0, r.calls[0].1).error)
    ensures |r.calls| == 1 && fetch(r.calls[0].0, r.calls[0].1).Ok? ==> r.outcome == Item(fetch(r.calls[0].0, r.calls[0].1).value)
  {
    var key := match PreferredKey(QualString(eq, "org_unit_id"), QualString(eq, "org_unit_path"))
               case None => None
               case Some(k) => Some((MyCustomer, k));
    Lookup(key, (k: (string, string)) => fetch(k.0, k.1))
  }
}
