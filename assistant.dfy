/** The AI assistant panel (src/components/AIAssistant.jsx): the ordered file
    selection, the submit handler with its guard, its prompt assembly and
    its chat-history updates, and the key reset. The panel's `useState`
    cells are the fields of `Assistant`; `localStorage` is the field
    `storedKey`. The model call is the parameter `generate`, the dashboard's
    content resolver the parameter `resolve`, and the megabyte figure of the
    size placeholder the parameter `formatMb`. */
module AIAssistant {
  import opened Wrappers
  import opened Strings
  import opened Repo
  import opened Seqs

  // ---------------------------------------------------------------- selection

  /** `handleFileSelection`: checking appends the path, unchecking removes
      every occurrence of it. */
  function Toggle(prev: seq<string>, value: string, checked: bool): seq<string>
  {
    if checked then prev + [value] else Filter(prev, (file: string) => file != value)
  }

  /** Checking puts the path last and keeps the earlier selection in front,
      so the list follows the order in which paths were checked. */
  lemma ToggleChecked(prev: seq<string>, value: string)
    ensures Toggle(prev, value, true)[..|prev|] == prev
    ensures |Toggle(prev, value, true)| == |prev| + 1 && Toggle(prev, value, true)[|prev|] == value
  {
  }

  /** Unchecking leaves no occurrence of the path and every other path as
      often as before; checking adds one occurrence and changes nothing
      else. */
  lemma ToggleCounts(prev: seq<string>, value: string, checked: bool)
    ensures multiset(Toggle(prev, value, checked))[value] == if checked then multiset(prev)[value] + 1 else 0
    ensures forall other :: other != value ==> multiset(Toggle(prev, value, checked))[other] == multiset(prev)[other]
  {
    if !checked {
      FilterMultiplicity(prev, (file: string) => file != value);
    }
  }

  /** Unchecking keeps the other paths in their order: the result is the
      previous list with the path's occurrences cut out. */
  lemma {:induction false} UncheckKeepsOrder(prev: seq<string>, value: string, front: seq<string>, back: seq<string>)
    requires prev == front + [value] + back
    ensures Toggle(prev, value, false) == Toggle(front + back, value, false)
    decreases |back|
  {
    if back == [] {
      assert prev[..|prev| - 1] == front;
      assert front + back == front;
    } else {
      assert prev[..|prev| - 1] == front + [value] + back[..|back| - 1];
      assert (front + back)[..|front + back| - 1] == front + back[..|back| - 1];
      UncheckKeepsOrder(front + [value] + back[..|back| - 1], value, front, back[..|back| - 1]);
    }
  }

  // ---------------------------------------------------------------- prompt

  const Preamble: string :=
    "CONTEXT: You are an expert programmer and AI assistant. The user has provided the following file(s) "
    + "from a GitHub repository. Answer the user's question based on the content of these files.\n\n"

  /** The block of one selected file. */
  function FileBlock(path: string, content: string): string
  {
    "--- FILE: " + path + " ---\n```\n" + content + "\n```\n\n"
  }

  /** The placeholder of a file over the limit; `mb` is the megabyte figure. */
  function TooLarge(mb: string): string
  {
    "[Error: This file is larger than 1MB (" + mb + " MB) and could not be processed.]"
  }

  const SizeLimit: int := 1000000

  /** `repoData.files.find(f => f.path === filePath)`. */
  function FindFile(files: seq<Entry>, path: string): (r: Option<Entry>)
    ensures r.Some? ==> r.value in files && r.value.path == path
    ensures r.Some? ==> exists j :: 0 <= j < |files| && files[j] == r.value && NoPathBefore(files, path, j)
    ensures r.None? ==> forall i :: 0 <= i < |files| ==> files[i].path != path
    decreases |files|
  {
    if files == [] then None
    else if files[0].path == path then
      assert NoPathBefore(files, path, 0);
      Some(files[0])
    else
      var r := FindFile(files[1..], path);
      if r.Some? then
        var j :| 0 <= j < |files| - 1 && files[1..][j] == r.value && NoPathBefore(files[1..], path, j);
        assert NoPathBefore(files, path, j + 1);
        r
      else r
  }

  /** No entry before position `j` has the path. */
  predicate NoPathBefore(files: seq<Entry>, path: string, j: int)
    requires j <= |files|
  {
    forall i :: 0 <= i < j ==> files[i].path != path
  }

  /** `file && file.size > 1000000`: the first entry with the path has a size
      strictly over the limit; an absent file or size goes through. */
  predicate IsLarge(files: seq<Entry>, path: string)
  {
    var f := FindFile(files, path);
    f.Some? && f.value.size.Some? && f.value.size.value > SizeLimit
  }

  /** The `content` of one selected file. */
  function ContentFor(files: seq<Entry>, path: string, resolve: string -> string, formatMb: int -> string): string
  {
    if IsLarge(files, path) then TooLarge(formatMb(FindFile(files, path).value.size.value)) else resolve(path)
  }

  /** `context` after the blocks of the selected files have been appended
      to the preamble, in selection order. */
  function Context(files: seq<Entry>, selected: seq<string>, resolve: string -> string, formatMb: int -> string): string
    decreases |selected|
  {
    if selected == [] then Preamble
    else
      var path := selected[|selected| - 1];
      Context(files, selected[..|selected| - 1], resolve, formatMb) + FileBlock(path, ContentFor(files, path, resolve, formatMb))
  }

  /** The prompt sent to the model. */
  function Prompt(files: seq<Entry>, selected: seq<string>, query: string,
                  resolve: string -> string, formatMb: int -> string): string
  {
    Context(files, selected, resolve, formatMb) + "QUESTION: " + query
  }

  /** The paths handed to `onFileContentRequested`, in order. */
  function Requested(files: seq<Entry>, selected: seq<string>): seq<string>
  {
    Filter(selected, (path: string) => !IsLarge(files, path))
  }

  /** The prompt loop: one block per selected path, each either the size
      placeholder or the content the dashboard resolves for it. */
  method BuildPrompt(files: seq<Entry>, selected: seq<string>, query: string,
                     resolve: string -> string, formatMb: int -> string)
    returns (prompt: string, requested: seq<string>)
    ensures prompt == Prompt(files, selected, query, resolve, formatMb)
    ensures requested == Requested(files, selected)
  {
    var context := Preamble;
    requested := [];
    for i := 0 to |selected|
      invariant context == Context(files, selected[..i], resolve, formatMb)
      invariant requested == Requested(files, selected[..i])
    {
      var path := selected[i];
      assert selected[..i + 1][..i] == selected[..i];
      var file := FindFile(files, path);
      var content;
      if file.Some? && file.value.size.Some? && file.value.size.value > SizeLimit {
        content := TooLarge(formatMb(file.value.size.value));
      } else {
        content := resolve(path);
        requested := requested + [path];
      }
      context := context + FileBlock(path, content);
    }
    assert selected[..|selected|] == selected;
    prompt := context + "QUESTION: " + query;
  }

  /** The context grows only by appending blocks. */
  lemma {:induction false} ContextGrows(files: seq<Entry>, selected: seq<string>, n: nat,
                                        resolve: string -> string, formatMb: int -> string)
    requires n <= |selected|
    ensures Context(files, selected[..n], resolve, formatMb) <= Context(files, selected, resolve, formatMb)
    decreases |selected|
  {
    if n < |selected| {
      var init := selected[..|selected| - 1];
      assert selected[..n] == init[..n];
      ContextGrows(files, init, n, resolve, formatMb);
    } else {
      assert selected[..n] == selected;
    }
  }

  /** The prompt starts with the preamble, holds each selected file's block
      right after the blocks of the files selected before it, and ends with
      the question as typed. */
  lemma PromptLayout(files: seq<Entry>, selected: seq<string>, query: string,
                     resolve: string -> string, formatMb: int -> string, k: nat)
    requires k < |selected|
    ensures Preamble <= Prompt(files, selected, query, resolve, formatMb)
    ensures Context(files, selected[..k], resolve, formatMb)
      + FileBlock(selected[k], ContentFor(files, selected[k], resolve, formatMb))
      <= Prompt(files, selected, query, resolve, formatMb)
    ensures Prompt(files, selected, query, resolve, formatMb)[|Context(files, selected, resolve, formatMb)|..]
      == "QUESTION: " + query
  {
    var context := Context(files, selected, resolve, formatMb);
    var prompt := Prompt(files, selected, query, resolve, formatMb);
    var before := Context(files, selected[..k], resolve, formatMb);
    var block := FileBlock(selected[k], ContentFor(files, selected[k], resolve, formatMb));
    assert prompt == context + ("QUESTION: " + query);
    assert selected[..0] == [];
    ContextGrows(files, selected, 0, resolve, formatMb);
    PrefixTransitive(Preamble, context, prompt);
    assert selected[..k + 1][..k] == selected[..k] && selected[..k + 1][k] == selected[k];
    assert Context(files, selected[..k + 1], resolve, formatMb) == before + block;
    ContextGrows(files, selected, k + 1, resolve, formatMb);
    PrefixTransitive(before + block, context, prompt);
  }

  lemma PrefixTransitive(a: string, b: string, c: string)
    requires a <= b && b <= c
    ensures a <= c
  {
    assert c[..|b|][..|a|] == c[..|a|];
  }

  /** The size gate: a selected file is requested exactly when it is not
      over the limit, and a file over the limit gets the placeholder. */
  lemma SizeGate(files: seq<Entry>, selected: seq<string>, path: string,
                 resolve: string -> string, formatMb: int -> string)
    ensures path in Requested(files, selected) <==> path in selected && !IsLarge(files, path)
    ensures IsLarge(files, path) ==>
      ContentFor(files, path, resolve, formatMb) == TooLarge(formatMb(FindFile(files, path).value.size.value))
    ensures !IsLarge(files, path) ==> ContentFor(files, path, resolve, formatMb) == resolve(path)
  {
    FilterMembers(selected, (p: string) => !IsLarge(files, p));
  }

  /** The limit is strict, and a path missing from the listing or listed
      without a size is requested. */
  lemma SizeLimitBoundary(path: string, sha: string)
    ensures !IsLarge([Entry(path, Blob, Some(1000000), sha)], path)
    ensures IsLarge([Entry(path, Blob, Some(1000001), sha)], path)
    ensures !IsLarge([], path)
    ensures !IsLarge([Entry(path, Tree, None, sha)], path)
  {
  }

  // ---------------------------------------------------------------- replies

  datatype Message = User(text: string) | Model(text: string)

  /** How `generateContent` ends: the response text, or an error with its
      `message` (`None` when the thrown value has none). */
  datatype GenOutcome = Generated(text: string) | Failed(message: Option<string>)

  const InvalidKeyNotice: string := "It seems the API key is invalid. Please re-enter a valid key to continue."

  const ErrorPrefix: string := "Sorry, an error occurred: "

  /** `error.message && (includes("API key not valid") || includes("API_KEY_INVALID"))`. */
  predicate IsKeyError(o: GenOutcome)
  {
    o.Failed? && o.message.Some? && o.message.value != ""
    && (Contains(o.message.value, "API key not valid") || Contains(o.message.value, "API_KEY_INVALID"))
  }

  /** The model message appended for an outcome; a missing message prints
      as `undefined`. */
  function Reply(o: GenOutcome): string
  {
    match o
    case Generated(text) => text
    case Failed(m) =>
      if IsKeyError(o) then InvalidKeyNotice
      else ErrorPrefix + (if m.Some? then m.value else "undefined")
  }

  /** The three kinds of reply: an error whose message mentions either key
      marker gets the notice, any other message is quoted after the prefix,
      and an error without a message is reported as `undefined`. */
  lemma ReplyKinds(front: string, back: string, m: string)
    requires !Contains(m, "API key not valid") && !Contains(m, "API_KEY_INVALID")
    ensures Reply(Failed(Some(front + "API key not valid" + back))) == InvalidKeyNotice
    ensures Reply(Failed(Some(front + "API_KEY_INVALID" + back))) == InvalidKeyNotice
    ensures Reply(Failed(Some(m))) == ErrorPrefix + m
    ensures Reply(Failed(None)) == ErrorPrefix + "undefined"
  {
    OccursBetween(front, "API key not valid", back);
    OccursBetween(front, "API_KEY_INVALID", back);
  }

  lemma OccursBetween(front: string, sub: string, back: string)
    ensures Contains(front + sub + back, sub)
  {
    var s := front + sub + back;
    assert s[|front|..|front| + |sub|] == sub;
    assert OccursAt(s, sub, |front|);
  }

  // ---------------------------------------------------------------- the panel

  class Assistant {
    var apiKey: string
    /** The `gemini_api_key` entry of `localStorage`. */
    var storedKey: Option<string>
    var isKeyValid: bool
    var selectedFiles: seq<string>
    var userQuery: string
    var chatHistory: seq<Message>
    var isLoading: bool

    /** The initial state: the key box holds the stored key, if any. */
    constructor (storedKey: Option<string>)
      ensures this.storedKey == storedKey
      ensures apiKey == (if storedKey.Some? then storedKey.value else "")
      ensures !isKeyValid && !isLoading
      ensures selectedFiles == [] && userQuery == "" && chatHistory == []
    {
      this.storedKey := storedKey;
      apiKey := if storedKey.Some? then storedKey.value else "";
      isKeyValid := false;
      selectedFiles := [];
      userQuery := "";
      chatHistory := [];
      isLoading := false;
    }

    /** The submit guard: a non-blank query, no request in flight, and at
        least one selected file. */
    predicate CanSubmit()
      reads this
    {
      !IsBlank(userQuery) && !isLoading && |selectedFiles| > 0
    }

    /** `handleFileSelection`. */
    method SelectFile(value: string, checked: bool)
      modifies this
      ensures selectedFiles == Toggle(old(selectedFiles), value, checked)
      ensures apiKey == old(apiKey) && storedKey == old(storedKey) && isKeyValid == old(isKeyValid)
      ensures userQuery == old(userQuery) && chatHistory == old(chatHistory) && isLoading == old(isLoading)
    {
      selectedFiles := Toggle(selectedFiles, value, checked);
    }

    /** `handleChangeKey`. */
    method ChangeKey()
      modifies this
      ensures !isKeyValid && apiKey == "" && storedKey.None?
      ensures selectedFiles == old(selectedFiles) && userQuery == old(userQuery)
      ensures chatHistory == old(chatHistory) && isLoading == old(isLoading)
    {
      isKeyValid := false;
      apiKey := "";
      storedKey := None;
    }

    /** The part of `handleQuerySubmit` before the first `await`: nothing
        happens when the guard fails; otherwise the query is appended as a
        user message, loading starts and the box is cleared. The query as
        typed is returned for the prompt. */
    method BeginQuery() returns (query: Option<string>)
      modifies this
      ensures !old(CanSubmit()) ==>
        query.None? && userQuery == old(userQuery) && chatHistory == old(chatHistory) && isLoading == old(isLoading)
      ensures old(CanSubmit()) ==>
        query == Some(old(userQuery)) && chatHistory == old(chatHistory) + [User(old(userQuery))]
        && isLoading && userQuery == ""
      ensures apiKey == old(apiKey) && storedKey == old(storedKey) && isKeyValid == old(isKeyValid)
      ensures selectedFiles == old(selectedFiles)
    {
      if !CanSubmit() {
        return None;
      }
      query := Some(userQuery);
      chatHistory := chatHistory + [User(userQuery)];
      isLoading := true;
      userQuery := "";
    }

    /** The rest of `handleQuerySubmit` once the model call has ended:
        exactly one model message, the key reset for a rejected key, and
        loading ends. */
    method FinishQuery(outcome: GenOutcome)
      modifies this
      ensures chatHistory == old(chatHistory) + [Model(Reply(outcome))]
      ensures !isLoading
      ensures IsKeyError(outcome) ==> !isKeyValid && apiKey == "" && storedKey.None?
      ensures !IsKeyError(outcome) ==>
        isKeyValid == old(isKeyValid) && apiKey == old(apiKey) && storedKey == old(storedKey)
      ensures selectedFiles == old(selectedFiles) && userQuery == old(userQuery)
    {
      chatHistory := chatHistory + [Model(Reply(outcome))];
      if IsKeyError(outcome) {
        ChangeKey();
      }
      isLoading := false;
    }

    /** The whole handler: an accepted query appends exactly the user
        message and one reply to the prompt built from the query as typed;
        the paths returned are the ones requested from the dashboard. */
    method Submit(files: seq<Entry>, resolve: string -> string, formatMb: int -> string,
                  generate: string -> GenOutcome)
      returns (requested: seq<string>)
      modifies this
      ensures !old(CanSubmit()) ==>
        requested == [] && chatHistory == old(chatHistory) && isLoading == old(isLoading)
        && userQuery == old(userQuery)
        && apiKey == old(apiKey) && storedKey == old(storedKey) && isKeyValid == old(isKeyValid)
      ensures old(CanSubmit()) ==>
        var outcome := generate(Prompt(files, old(selectedFiles), old(userQuery), resolve, formatMb));
        requested == Requested(files, old(selectedFiles))
        && chatHistory == old(chatHistory) + [User(old(userQuery)), Model(Reply(outcome))]
        && !isLoading && userQuery == ""
        && (IsKeyError(outcome) ==> !isKeyValid && apiKey == "" && storedKey.None?)
        && (!IsKeyError(outcome) ==>
              isKeyValid == old(isKeyValid) && apiKey == old(apiKey) && storedKey == old(storedKey))
      ensures selectedFiles == old(selectedFiles)
    {
      var query := BeginQuery();
      if query.None? {
        return [];
      }
      var prompt;
      prompt, requested := BuildPrompt(files, selectedFiles, query.value, resolve, formatMb);
      FinishQuery(generate(prompt));
    }
  }
}
