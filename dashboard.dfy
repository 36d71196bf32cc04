/** The dashboard page (src/pages/Dashboard.jsx): `handleVisualize` with its
    `fetchWithRateLimitUpdate` helper, and `handleFileClick`. Each request is
    an abstract outcome: the parsed JSON and the response headers, or a
    rejection with its message. The page's `useState` cells are the fields of
    `Page`; the rate limit, which the page receives from its parent, is one of
    them too. An `async` handler is split at its `await`: a Start/Begin method
    for the synchronous part, a Finish method for what runs once the requests
    have settled. */
module Dashboard {
  import opened Wrappers
  import opened Repo
  import opened HierarchyData
  import opened GitHubUrl
  import opened FileContent
  import opened Base64

  /** The two rate-limit headers, `None` where `headers.get` returns `null`. */
  datatype Headers = Headers(remaining: Option<string>, limit: Option<string>)

  /** What `fetchApi` resolves to, or the message it rejects with. It carries
      no status, so the `status === 202` branch of the helper never runs and
      has no counterpart here. */
  datatype Fetch<T> = Fetched(data: T, headers: Headers) | Rejected(message: string)

  datatype RateLimit = RateLimit(limit: string, remaining: string)

  /** A request reduced to what the rate limit and the error depend on. */
  datatype Settled = Ok(headers: Headers) | Err(message: string)

  function Settle<T>(f: Fetch<T>): Settled
  {
    match f
    case Fetched(_, h) => Ok(h)
    case Rejected(m) => Err(m)
  }

  /** The five requests of the `Promise.all`, and the order in which they
      settle: `order[i]` is the position (tree, issues, workflows, pulls,
      commit activity) of the i-th to settle. */
  datatype Batch = Batch(
    tree: Fetch<seq<Entry>>,
    issues: Fetch<seq<Issue>>,
    workflows: Fetch<Option<seq<Workflow>>>,
    pulls: Fetch<Option<seq<Pull>>>,
    activity: Fetch<Option<seq<Week>>>,
    order: seq<nat>)

  /** Every one of the five requests settles exactly once: five settlements,
      each naming one of the five positions, and every position named (so
      none twice). */
  predicate IsCompletionOrder(order: seq<nat>)
  {
    |order| == 5 && (forall i :: 0 <= i < 5 ==> order[i] < 5) && (forall k :: 0 <= k < 5 ==> k in order)
  }

  function Slots(b: Batch): (ss: seq<Settled>)
    ensures |ss| == 5
  {
    [Settle(b.tree), Settle(b.issues), Settle(b.workflows), Settle(b.pulls), Settle(b.activity)]
  }

  /** The five requests in the order they settle. */
  function Completed(b: Batch): (ss: seq<Settled>)
    requires IsCompletionOrder(b.order)
    ensures |ss| == 5
    ensures forall i :: 0 <= i < 5 ==> ss[i] == Slots(b)[b.order[i]]
  {
    seq(5, i requires 0 <= i < 5 => Slots(b)[b.order[i]])
  }

  /** Every request appears in the completion order. */
  lemma CompletedCovers(b: Batch, k: nat)
    requires IsCompletionOrder(b.order) && k < 5
    ensures exists i :: 0 <= i < 5 && Completed(b)[i] == Slots(b)[k]
  {
    assert k in b.order;
    var i :| 0 <= i < |b.order| && b.order[i] == k;
    assert Completed(b)[i] == Slots(b)[k];
  }

  predicate AllFetched(b: Batch)
  {
    b.tree.Fetched? && b.issues.Fetched? && b.workflows.Fetched? && b.pulls.Fetched? && b.activity.Fetched?
  }

  /** A header counts when it is a non-empty string: `"0"` counts, `""` does
      not. */
  predicate Truthy(s: Option<string>)
  {
    s.Some? && s.value != ""
  }

  /** `if (remaining && limit) setRateLimit({ limit, remaining })`. */
  function UpdateRate(rate: RateLimit, h: Headers): RateLimit
  {
    if Truthy(h.remaining) && Truthy(h.limit) then RateLimit(h.limit.value, h.remaining.value) else rate
  }

  /** The rate limit after a sequence of settled requests, in order. */
  function RateAfter(rate: RateLimit, ss: seq<Settled>): RateLimit
    decreases |ss|
  {
    if ss == [] then rate
    else RateAfter(if ss[0].Ok? then UpdateRate(rate, ss[0].headers) else rate, ss[1..])
  }

  /** The message `Promise.all` rejects with: the first rejection to settle. */
  function FirstRejection(ss: seq<Settled>): Option<string>
    decreases |ss|
  {
    if ss == [] then None
    else if ss[0].Err? then Some(ss[0].message)
    else FirstRejection(ss[1..])
  }

  /** Promise.all rejects exactly when a request does, and with the message
      of the earliest one. */
  lemma {:induction false} FirstRejectionIsFirst(ss: seq<Settled>)
    ensures FirstRejection(ss).None? <==> forall i :: 0 <= i < |ss| ==> ss[i].Ok?
    ensures FirstRejection(ss).Some? ==>
      exists i :: 0 <= i < |ss| && ss[i] == Err(FirstRejection(ss).value) && (forall j :: 0 <= j < i ==> ss[j].Ok?)
    decreases |ss|
  {
    if ss != [] {
      FirstRejectionIsFirst(ss[1..]);
      if ss[0].Ok? && FirstRejection(ss).Some? {
        var i :| 0 <= i < |ss[1..]| && ss[1..][i] == Err(FirstRejection(ss).value)
          && forall j :: 0 <= j < i ==> ss[1..][j].Ok?;
        assert ss[i + 1] == Err(FirstRejection(ss).value);
      }
    }
  }

  /** A fetched reply that brings both headers. */
  predicate Updates(s: Settled)
  {
    s.Ok? && Truthy(s.headers.remaining) && Truthy(s.headers.limit)
  }

  /** With no reply bringing both headers, the rate limit is unchanged. */
  lemma {:induction false} RateAfterNone(rate: RateLimit, ss: seq<Settled>)
    requires forall i :: 0 <= i < |ss| ==> !Updates(ss[i])
    ensures RateAfter(rate, ss) == rate
    decreases |ss|
  {
    if ss != [] {
      assert !Updates(ss[0]);
      assert forall j :: 0 <= j < |ss[1..]| ==> ss[1..][j] == ss[j + 1];
      RateAfterNone(rate, ss[1..]);
    }
  }

  /** The rate limit ends as the headers of the last reply to bring both. */
  lemma {:induction false} RateAfterLast(rate: RateLimit, ss: seq<Settled>, i: nat)
    requires i < |ss| && Updates(ss[i])
    requires forall j :: i < j < |ss| ==> !Updates(ss[j])
    ensures RateAfter(rate, ss) == RateLimit(ss[i].headers.limit.value, ss[i].headers.remaining.value)
    decreases |ss|
  {
    var next := if ss[0].Ok? then UpdateRate(rate, ss[0].headers) else rate;
    assert forall j :: 0 <= j < |ss[1..]| ==> ss[1..][j] == ss[j + 1];
    if i == 0 {
      RateAfterNone(next, ss[1..]);
    } else {
      RateAfterLast(next, ss[1..], i - 1);
    }
  }

  /** The settling of the five requests, one reply at a time: each fetched
      reply's headers go through the rate-limit update, and the first
      rejection is kept. */
  method SettleAll(rate0: RateLimit, ss: seq<Settled>) returns (rate: RateLimit, rejection: Option<string>)
    ensures rate == RateAfter(rate0, ss)
    ensures rejection == FirstRejection(ss)
  {
    rate := rate0;
    rejection := None;
    for i := 0 to |ss|
      invariant RateAfter(rate, ss[i..]) == RateAfter(rate0, ss)
      invariant rejection.Some? ==> rejection == FirstRejection(ss)
      invariant rejection.None? ==> FirstRejection(ss) == FirstRejection(ss[i..])
    {
      assert ss[i..][1..] == ss[i + 1..];
      if ss[i].Ok? {
        rate := UpdateRate(rate, ss[i].headers);
      } else if rejection.None? {
        rejection := Some(ss[i].message);
      }
    }
  }

  /** The repository snapshot `repoData`. */
  datatype RepoData = RepoData(
    details: RepoDetails,
    issues: seq<Issue>,
    workflows: Option<seq<Workflow>>,
    files: seq<Entry>,
    hierarchy: Arena,
    pulls: Option<seq<Pull>>,
    commitActivity: Option<seq<Week>>)

  const AuthRequired: string := "Authentication is required."
  const InvalidUrl: string := "Invalid GitHub repository URL format."
  const NoBranch: string := "Could not determine the default branch for this repository."
  const FailurePrefix: string :=
    "Failed to fetch repo data. It might be private, non-existent, or you've hit the API limit. Error: "

  /** `repoDetails.default_branch` is truthy. */
  predicate HasBranch(d: RepoDetails)
  {
    d.defaultBranch.Some? && d.defaultBranch.value != ""
  }

  /** The error and the snapshot a visualization leaves. */
  datatype Published = Published(error: string, data: Option<RepoData>)

  /** The snapshot built from five fetched replies. */
  function Snapshot(d: RepoDetails, b: Batch): RepoData
    requires AllFetched(b)
  {
    RepoData(d, b.issues.data, b.workflows.data, b.tree.data, HierarchyOf(Some(b.tree.data)),
             b.pulls.data, b.activity.data)
  }

  /** The `setRepoData` argument, the hierarchy built by
      `createHierarchyData` from the tree's entries. */
  method BuildSnapshot(d: RepoDetails, b: Batch) returns (data: RepoData)
    requires AllFetched(b)
    ensures data == Snapshot(d, b)
  {
    var hierarchy := CreateHierarchyData(Some(b.tree.data));
    data := RepoData(d, b.issues.data, b.workflows.data, b.tree.data, hierarchy, b.pulls.data, b.activity.data);
  }

  /** What `handleVisualize` publishes once every request has settled. */
  function Publish(details: Fetch<RepoDetails>, b: Batch): Published
    requires IsCompletionOrder(b.order)
  {
    match details
    case Rejected(m) => Published(FailurePrefix + m, None)
    case Fetched(d, _) =>
      if !HasBranch(d) then Published(FailurePrefix + NoBranch, None)
      else
        match FirstRejection(Completed(b))
        case Some(m) => Published(FailurePrefix + m, None)
        case None =>
          FirstRejectionIsFirst(Completed(b));
          AllFetchedWhenNoRejection(b);
          Published("", Some(Snapshot(d, b)))
  }

  /** With no rejection in the completion order, all five were fetched. */
  lemma AllFetchedWhenNoRejection(b: Batch)
    requires IsCompletionOrder(b.order)
    requires forall i :: 0 <= i < 5 ==> Completed(b)[i].Ok?
    ensures AllFetched(b)
  {
    forall k | 0 <= k < 5 ensures Slots(b)[k].Ok? {
      CompletedCovers(b, k);
    }
    assert Slots(b)[0].Ok? && Slots(b)[1].Ok? && Slots(b)[2].Ok? && Slots(b)[3].Ok? && Slots(b)[4].Ok?;
  }

  /** The rate limit once every request has settled: the details reply
      first, then the five in the order they settle. */
  function FinalRate(rate: RateLimit, details: Fetch<RepoDetails>, b: Batch): RateLimit
    requires IsCompletionOrder(b.order)
  {
    match details
    case Rejected(_) => rate
    case Fetched(d, h) => if HasBranch(d) then RateAfter(UpdateRate(rate, h), Completed(b)) else UpdateRate(rate, h)
  }

  /** All or nothing: a snapshot is published exactly when the details carry
      a default branch and all five requests are fetched, and it then holds
      those replies and the hierarchy of the file list; otherwise the error
      is the fixed prefix followed by the message of what failed (the details
      request, the missing branch, or the first of the five to reject). */
  lemma PublishAllOrNothing(details: Fetch<RepoDetails>, b: Batch)
    requires IsCompletionOrder(b.order)
    ensures Publish(details, b).data.Some? <==> details.Fetched? && HasBranch(details.data) && AllFetched(b)
    ensures Publish(details, b).data.Some? ==>
      Publish(details, b).error == "" && Publish(details, b).data.value == Snapshot(details.data, b)
    ensures Publish(details, b).data.None? ==>
      (details.Rejected? && Publish(details, b).error == FailurePrefix + details.message)
      || (details.Fetched? && !HasBranch(details.data) && Publish(details, b).error == FailurePrefix + NoBranch)
      || (exists i :: 0 <= i < 5 && Completed(b)[i].Err? && Publish(details, b).error == FailurePrefix + Completed(b)[i].message)
  {
    FirstRejectionIsFirst(Completed(b));
    if FirstRejection(Completed(b)).None? {
      AllFetchedWhenNoRejection(b);
    }
    if details.Fetched? && HasBranch(details.data) && AllFetched(b) {
      assert forall k :: 0 <= k < 5 ==> Slots(b)[k].Ok?;
      assert forall i :: 0 <= i < 5 ==> Completed(b)[i].Ok?;
    }
  }

  /** The file the viewer shows. */
  datatype ViewedFile = ViewedFile(path: string, content: string)

  const LoadingText: string := "Loading..."

  /** The steps of `handleVisualize` after the details request: the details
      headers update the rate limit, a missing default branch stops there,
      otherwise the five replies are settled in completion order and the
      snapshot is built only when none of them was rejected. */
  method Settlement(rate0: RateLimit, details: Fetch<RepoDetails>, b: Batch) returns (rate: RateLimit, published: Published)
    requires IsCompletionOrder(b.order)
    ensures rate == FinalRate(rate0, details, b)
    ensures published == Publish(details, b)
  {
    if details.Rejected? {
      return rate0, Published(FailurePrefix + details.message, None);
    }
    rate := UpdateRate(rate0, details.headers);
    if !(details.data.defaultBranch.Some? && details.data.defaultBranch.value != "") {
      return rate, Published(FailurePrefix + NoBranch, None);
    }
    var ss := Completed(b);
    var rejection;
    rate, rejection := SettleAll(rate, ss);
    if rejection.Some? {
      return rate, Published(FailurePrefix + rejection.value, None);
    }
    FirstRejectionIsFirst(ss);
    AllFetchedWhenNoRejection(b);
    var data := BuildSnapshot(details.data, b);
    published := Published("", Some(data));
  }

  class Page {
    var authToken: Option<string>
    /** The pathname of the URL typed in the input box, `None` when
        `new URL` rejects it. */
    var repoUrl: Option<string>
    var isLoading: bool
    var error: string
    var repoData: Option<RepoData>
    var activeTab: string
    var viewingFile: Option<ViewedFile>
    var isFileLoading: bool
    var rateLimit: RateLimit

    /** The initial state; the empty input box is not a URL. */
    constructor (authToken: Option<string>, rateLimit: RateLimit)
      ensures this.authToken == authToken && this.rateLimit == rateLimit
      ensures repoUrl.None? && !isLoading && error == "" && repoData.None?
      ensures activeTab == "list" && viewingFile.None? && !isFileLoading
    {
      this.authToken := authToken;
      this.rateLimit := rateLimit;
      repoUrl := None;
      isLoading := false;
      error := "";
      repoData := None;
      activeTab := "list";
      viewingFile := None;
      isFileLoading := false;
    }

    /** The part of `handleVisualize` before the first request: validation,
        then the loading state. On a missing token or an unparseable URL only
        the error changes and no request is made (`target` is None). */
    method StartVisualize() returns (target: Option<RepoRef>)
      modifies this
      ensures !Truthy(old(authToken)) ==> target.None? && error == AuthRequired
      ensures Truthy(old(authToken)) && ParseGitHubUrl(repoUrl).None? ==> target.None? && error == InvalidUrl
      ensures target.None? ==> isLoading == old(isLoading) && repoData == old(repoData)
      ensures Truthy(old(authToken)) && ParseGitHubUrl(repoUrl).Some? ==>
        target == ParseGitHubUrl(repoUrl) && isLoading && error == "" && repoData.None?
      ensures authToken == old(authToken) && repoUrl == old(repoUrl) && rateLimit == old(rateLimit)
      ensures activeTab == old(activeTab) && viewingFile == old(viewingFile) && isFileLoading == old(isFileLoading)
    {
      if !(authToken.Some? && authToken.value != "") {
        error := AuthRequired;
        return None;
      }
      var repoInfo := ParseGitHubUrl(repoUrl);
      if repoInfo.None? {
        error := InvalidUrl;
        return None;
      }
      isLoading := true;
      error := "";
      repoData := None;
      return repoInfo;
    }

    /** The rest of `handleVisualize` once the details request and, when it
        gave a default branch, the five parallel requests have settled: each
        fetched reply's headers update the rate limit in the order the replies
        arrive, the first rejection (if any) becomes the error, the snapshot
        is published only when nothing failed, and loading always ends. */
    method FinishVisualize(details: Fetch<RepoDetails>, b: Batch)
      requires IsCompletionOrder(b.order)
      modifies this
      ensures var p := Publish(details, b);
        if p.data.Some? then repoData == p.data && activeTab == "list" && error == old(error)
        else error == p.error && repoData == old(repoData) && activeTab == old(activeTab)
      ensures rateLimit == FinalRate(old(rateLimit), details, b)
      ensures !isLoading
      ensures authToken == old(authToken) && repoUrl == old(repoUrl)
      ensures viewingFile == old(viewingFile) && isFileLoading == old(isFileLoading)
    {
      var rate, published := Settlement(rateLimit, details, b);
      rateLimit := rate;
      if published.data.Some? {
        repoData := published.data;
        activeTab := "list";
      } else {
        error := published.error;
      }
      isLoading := false;
    }

    /** The part of `handleFileClick` before the request: nothing happens
        for a missing entry or an empty path; otherwise the viewer opens on
        the path with the loading text. */
    method BeginFileClick(file: Option<Entry>) returns (path: Option<string>)
      modifies this
      ensures file.None? || file.value.path == "" ==>
        path.None? && viewingFile == old(viewingFile) && isFileLoading == old(isFileLoading)
      ensures file.Some? && file.value.path != "" ==>
        path == Some(file.value.path) && isFileLoading
        && viewingFile == Some(ViewedFile(file.value.path, LoadingText))
      ensures authToken == old(authToken) && repoUrl == old(repoUrl) && isLoading == old(isLoading)
      ensures error == old(error) && repoData == old(repoData) && activeTab == old(activeTab)
      ensures rateLimit == old(rateLimit)
    {
      if file.None? || file.value.path == "" {
        return None;
      }
      isFileLoading := true;
      viewingFile := Some(ViewedFile(file.value.path, LoadingText));
      return Some(file.value.path);
    }

    /** The rest of `handleFileClick`: the viewer shows the decoded text or a
        placeholder, and loading ends. */
    method FinishFileClick(path: string, fetch: (RepoRef, string) -> Option<ContentData>, utf8: seq<Byte> -> string)
      modifies this
      ensures viewingFile == Some(ViewedFile(path, ContentForViewer(path, repoUrl, fetch, utf8)))
      ensures !isFileLoading
      ensures authToken == old(authToken) && repoUrl == old(repoUrl) && isLoading == old(isLoading)
      ensures error == old(error) && repoData == old(repoData) && activeTab == old(activeTab)
      ensures rateLimit == old(rateLimit)
    {
      var ref := ParseGitHubUrl(repoUrl);
      var content: string;
      if ref.None? {
        content := CouldNotLoad(path);
      } else {
        var reply := fetch(ref.value, path);
        if reply.None? {
          content := CouldNotLoad(path);
        } else if Readable(reply.value) {
          content := DecodeBase64(reply.value.content.value, utf8);
        } else {
          content := CannotDisplay(reply.value.kind);
        }
      }
      viewingFile := Some(ViewedFile(path, content));
      isFileLoading := false;
    }
  }
}
