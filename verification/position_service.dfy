/** PositionService.GetCompanyPositionAsync: company check, range check, then
    the aggregation. The service's existence check is one query and the
    repository's company lookup and aggregate are two more; `checked` is the
    database the check sees and `read` the one both repository queries see,
    so a company deactivated in between yields the null the service turns
    into CompanyNotFound. */
module PositionService {
  import opened Time
  import opened Errors
  import opened Results
  import opened Models
  import opened Storage
  import opened Validation
  import PositionRead

  /** GetCompanyPositionAsync(companyId, from, to). */
  function GetCompanyPosition(checked: Db, read: Db, companyId: CompanyId, from: DateTime, to: DateTime)
    : (r: Result<CompanyPosition>)
    ensures r.Valid()
    ensures r.IsSuccess() <==>
              PositionRead.CompanyExists(checked, companyId) && AcceptableRange(from, to)
              && PositionRead.CompanyExists(read, companyId)
    ensures !PositionRead.CompanyExists(checked, companyId) ==> r == Failure(PositionCompanyNotFound(companyId))
    ensures PositionRead.CompanyExists(checked, companyId) && !AcceptableRange(from, to) ==>
              r == Failure(ValidateTimeRange(from, to, PositionRangeErrors).Err())
    ensures PositionRead.CompanyExists(checked, companyId) && AcceptableRange(from, to)
              && !PositionRead.CompanyExists(read, companyId) ==>
              r == Failure(PositionCompanyNotFound(companyId))
    ensures r.IsSuccess() ==>
              && r.value.companyId == companyId
              && r.value.companyName == read.companies[companyId].name
              && r.value == PositionRead.GetCompanyPosition(read, companyId, from, to).value
  {
    RangeResultsAreValid(from, to);
    if !PositionRead.CompanyExists(checked, companyId) then Failure(PositionCompanyNotFound(companyId))
    else
      var check := ValidateTimeRange(from, to, PositionRangeErrors);
      if check.IsFailure() then Failure(check.error)
      else
        match PositionRead.GetCompanyPosition(read, companyId, from, to)
        case None => Failure(PositionCompanyNotFound(companyId))
        case Some(position) => Success(position)
  }

  /** When the check and the repository see the same database, the null
      branch is never taken: an existing company with a valid range always
      gets its position. */
  lemma SameSnapshotAlwaysFindsCompany(db: Db, companyId: CompanyId, from: DateTime, to: DateTime)
    requires PositionRead.CompanyExists(db, companyId) && AcceptableRange(from, to)
    ensures GetCompanyPosition(db, db, companyId, from, to)
              == Success(PositionRead.GetCompanyPosition(db, companyId, from, to).value)
  {
  }

  /** A position request for a week of hours starting on the hour passes
      validation, and the hours it reports are all inside that week. */
  lemma WeekPositionIsInWindow(db: Db, companyId: CompanyId, from: DateTime)
    requires PositionRead.CompanyExists(db, companyId)
    requires from.kind == Utc && OnHour(from)
    ensures var to := DateTime(Utc, from.ticks + MaxRangeTicks);
            var r := GetCompanyPosition(db, db, companyId, from, to);
            && r.IsSuccess()
            && forall i :: 0 <= i < |r.value.positions| ==>
                 from.ticks <= r.value.positions[i].hourUtc.ticks < to.ticks
  {
    var to := DateTime(Utc, from.ticks + MaxRangeTicks);
    SevenDayCeilingIsInclusive(from, PositionRangeErrors);
    var ps := GetCompanyPosition(db, db, companyId, from, to).value.positions;
    forall i | 0 <= i < |ps| ensures from.ticks <= ps[i].hourUtc.ticks < to.ticks {
      assert ps[i] in ps;
      var h := ps[i].hourUtc.ticks;
      assert h in PositionRead.HoursOfPositions(ps);
      var k :| k in PositionRead.ContributingKeys(db, companyId, from, to) && k.hour == h;
    }
  }
}
