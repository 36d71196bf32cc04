/** The GitHub REST payloads the visualizer reads, reduced to the fields it
    uses. */
module Repo {
  import opened Wrappers

  /** The `type` of an entry of a recursive git tree listing. */
  datatype EntryKind = Blob | Tree | Commit

  /** An entry of `git/trees/{branch}?recursive=1`; `size` is absent for trees. */
  datatype Entry = Entry(path: string, kind: EntryKind, size: Option<int>, sha: string)

  datatype Label = Label(name: string)

  datatype Issue = Issue(number: int, title: string, labels: seq<Label>)

  datatype Pull = Pull(number: int, title: string)

  datatype Workflow = Workflow(name: string, state: string)

  /** A calendar month index as `Date.prototype.getMonth` returns it. */
  type Month = m: int | 0 <= m < 12

  /** A week of `stats/commit_activity`. `month` is the local calendar month of
      the week's start, which the source computes from the epoch seconds with
      the browser's clock and time zone. */
  datatype Week = Week(month: Month, total: int)

  /** The repository details payload. */
  datatype RepoDetails = RepoDetails(fullName: string, stars: int, defaultBranch: Option<string>)
}
