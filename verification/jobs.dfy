/** The jobs board: the title/company search and the case-insensitive job-type filter,
    and the query-parameter state behind them. */
module Jobs {

  import Seqs
  import Text
  import SearchParams

  datatype Job = Job(
    id: string,
    title: string,
    company: string,
    location: string,
    jobType: string,
    salary: string,
    description: string)

  /** `matchesSearch`: an empty search matches everything; otherwise the lower-cased query
      must occur in the lower-cased title or company. */
  predicate MatchesSearch(job: Job, searchQuery: string)
  {
    searchQuery == ""
    || Text.Contains(Text.Lower(job.title), Text.Lower(searchQuery))
    || Text.Contains(Text.Lower(job.company), Text.Lower(searchQuery))
  }

  /** `matchesType`: "all" matches everything; otherwise the types are compared lower-cased. */
  predicate MatchesType(job: Job, typeFilter: string)
  {
    typeFilter == "all" || Text.Lower(job.jobType) == Text.Lower(typeFilter)
  }

  function JobTest(searchQuery: string, typeFilter: string): Job -> bool
  {
    (job: Job) => MatchesSearch(job, searchQuery) && MatchesType(job, typeFilter)
  }

  /** `filteredJobs`: the jobs that match both the search and the type, in board order. */
  function FilteredJobs(jobs: seq<Job>, searchQuery: string, typeFilter: string): (r: seq<Job>)
    ensures forall job :: job in r <==> job in jobs && MatchesSearch(job, searchQuery) && MatchesType(job, typeFilter)
    ensures Seqs.IsSubsequence(r, jobs)
  {
    Seqs.FilterIsSubsequence(jobs, JobTest(searchQuery, typeFilter));
    Seqs.Filter(jobs, JobTest(searchQuery, typeFilter))
  }

  /** Only the title and the company are searched: changing a job's location, salary or
      description never changes whether it matches. */
  lemma SearchIgnoresOtherFields(job: Job, searchQuery: string, location: string, salary: string, description: string)
    ensures MatchesSearch(job.(location := location, salary := salary, description := description), searchQuery)
        == MatchesSearch(job, searchQuery)
  {
  }

  /** The type comparison ignores letter case: "Full-time" passes the filter "full-time". */
  lemma TypeFilterIgnoresCase(job: Job)
    requires job.jobType == "Full-time"
    ensures MatchesType(job, "full-time")
  {
    assert Text.Lower("Full-time") == "full-time" by {
      assert Text.LowerChar('F') == 'f';
    }
    assert Text.Lower("full-time") == "full-time";
  }

  /** With an empty search and type "all", the board shows every job in order. */
  lemma {:induction false} UnfilteredShowsAll(jobs: seq<Job>)
    ensures FilteredJobs(jobs, "", "all") == jobs
  {
    Seqs.FilterAll(jobs, JobTest("", "all"));
  }

  /** The jobs board's filter state: its URL query parameters. */
  class JobsFilters {
    var params: SearchParams.Params

    constructor (initial: SearchParams.Params)
      ensures params == initial
    {
      params := initial;
    }

    function SearchQuery(): string
      reads this
    {
      SearchParams.Get(params, "search", "")
    }

    function TypeFilter(): string
      reads this
    {
      SearchParams.Get(params, "type", "all")
    }

    /** `updateSearchParams(key, value)` on a copy of the parameters, then stored back. */
    method UpdateSearchParams(key: string, value: string)
      modifies this
      ensures params == SearchParams.WithParam(old(params), key, value)
    {
      var newParams := params;
      if value != "" && value != "all" {
        newParams := newParams[key := value];
      } else {
        newParams := newParams - {key};
      }
      params := newParams;
    }

    /** The "Clear Filters" button: no parameters, after which every job is listed. */
    method ClearFilters(jobs: seq<Job>)
      modifies this
      ensures params == map[]
      ensures FilteredJobs(jobs, SearchQuery(), TypeFilter()) == jobs
    {
      params := map[];
      UnfilteredShowsAll(jobs);
    }
  }
}
