/** The background job that refreshes one category's index (app/jobs/regular/doc_categories_refresh_index.rb). */
module RefreshJob {
  import opened Wrappers
  import opened Host
  import opened Store
  import opened Refresher

  datatype JobResult =
    | InvalidParameters   // raised when the job is given no category id
    | Ran(outcome: Outcome)

  /** `execute(args)`: refuses a missing category id, otherwise runs the refresher for it. */
  method Execute(db: Db, site: Site, categoryId: Option<int>) returns (result: JobResult)
    modifies db
    ensures categoryId.None? ==> result == InvalidParameters && db.indexes == old(db.indexes) && db.log == old(db.log)
    ensures categoryId.Some? ==>
      var r := Refreshed(categoryId.value, old(db.indexes), site);
      result == Ran(r.outcome) && db.indexes == r.indexes && db.log == old(db.log) + r.events
  {
    if categoryId.None? {
      return InvalidParameters;
    }
    var refresher := new IndexStructureRefresher(categoryId.value);
    var outcome := refresher.Refresh(db, site);
    return Ran(outcome);
  }
}
