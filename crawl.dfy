/**
 * The crawler's bookkeeping (data.py): the resume scan that folds the
 * records already written into a set of finished URL keys and the largest
 * numeric `docN` id, and the loop that turns the input URL list into crawl
 * tasks with fresh consecutive ids.
 */
module Crawl {
  import opened Wrappers
  import opened PyStr
  import opened UrlKey

  /** A JSON field as `dict.get` sees it. */
  datatype Field =
    | Absent                 // the key is missing
    | Null                   // JSON null
    | Text(s: string)        // a JSON string
    | Other(truthy: bool)    // a number, boolean, list or object, and whether Python finds it true

  /** One line of the corpus file, as the resume scan reads it. */
  datatype CorpusLine =
    | Blank                            // empty once stripped
    | Unparsable                       // `json.loads` raises
    | NotObject                        // valid JSON, but not an object
    | Record(url: Field, id: Field)    // an object, with its "url" and "id" fields

  /** One element of the input URL list. */
  datatype InputItem = NotAnObject | Item(url: Field)

  /** One crawl task: its id and its URL exactly as given. */
  datatype Task = Task(id: string, url: string)

  /** The id prefix of every document. */
  const DocPrefix: string := "doc"

  // ----- the resume scan (data.py:62-97) -----

  /** Whether `normalize_url` raises on this field: it does on a true value that is not a string. */
  predicate NormalizeRaises(f: Field) {
    f.Other? && f.truthy
  }

  /**
   * `normalize_url(data.get("url", ""))` when it does not raise. The model's
   * functions take the URL normaliser as a parameter `normalize`: the
   * methods pass `NormalizeUrl`, and the lemmas hold for it as for any other.
   */
  function UrlFieldKey(f: Field, normalize: string -> string): string {
    if f.Text? then normalize(f.s) else ""
  }

  /**
   * The number the scan reads from an id field: `id.replace("doc", "")` when
   * it is all ASCII digits. A missing id reads as "doc0"; a null or
   * non-string id makes `replace` raise, which the scan skips.
   */
  function IdNumber(f: Field): Option<nat> {
    var id := if f.Absent? then DocPrefix + "0" else if f.Text? then f.s else "";
    var cid := ReplaceAll(id, DocPrefix, "");
    if (f.Absent? || f.Text?) && IsDigits(cid) then Some(ParseDigits(cid)) else None
  }

  /** The scan's state: the finished URL keys and the largest id number so far. */
  datatype ScanState = ScanState(finished: set<string>, maxDocId: nat)

  /**
   * What one corpus line does to the state. The URL key is recorded before
   * the id is read, so a record whose id makes the scan raise still counts
   * as finished; a record whose URL makes it raise is skipped altogether.
   */
  function ScanLine(st: ScanState, line: CorpusLine, normalize: string -> string): ScanState {
    if !line.Record? || NormalizeRaises(line.url) then st
    else
      var u := UrlFieldKey(line.url, normalize);
      var finished := if u != "" then st.finished + {u} else st.finished;
      var n := IdNumber(line.id);
      ScanState(finished, if n.Some? && n.value > st.maxDocId then n.value else st.maxDocId)
  }

  /** The state after scanning `lines`. */
  function Scan(lines: seq<CorpusLine>, normalize: string -> string): ScanState {
    if lines == [] then ScanState({}, 0)
    else ScanLine(Scan(lines[..|lines| - 1], normalize), lines[|lines| - 1], normalize)
  }

  /** The loop of `get_finished_urls` (data.py:75-92) over the lines of the corpus file. */
  method GetFinishedUrls(lines: seq<CorpusLine>) returns (finished: set<string>, maxDocId: nat)
    ensures ScanState(finished, maxDocId) == Scan(lines, NormalizeUrl)
  {
    finished, maxDocId := {}, 0;
    for i := 0 to |lines|
      invariant ScanState(finished, maxDocId) == Scan(lines[..i], NormalizeUrl)
    {
      assert lines[..i + 1][..i] == lines[..i];
      var line := lines[i];
      if !line.Record? {
        continue;
      }
      if NormalizeRaises(line.url) {
        continue;
      }
      var u := UrlFieldKey(line.url, NormalizeUrl);
      if u != "" {
        finished := finished + {u};
      }
      var n := IdNumber(line.id);
      if n.Some? && n.value > maxDocId {
        maxDocId := n.value;
      }
    }
    assert lines[..|lines|] == lines;
  }

  /** Line `i` is a record the scan reads in full: its URL does not make it raise. */
  predicate Scanned(lines: seq<CorpusLine>, i: int) {
    0 <= i < |lines| && lines[i].Record? && !NormalizeRaises(lines[i].url)
  }

  /** Some record the scan reads has URL key `u`. */
  ghost predicate KeyRead(lines: seq<CorpusLine>, u: string, normalize: string -> string) {
    exists i :: Scanned(lines, i) && UrlFieldKey(lines[i].url, normalize) == u
  }

  /** Some record the scan reads has id number `n`. */
  ghost predicate IdRead(lines: seq<CorpusLine>, n: nat) {
    exists i :: Scanned(lines, i) && IdNumber(lines[i].id) == Some(n)
  }

  /** The lines before the last one are read as they are on their own. */
  lemma {:induction false} ScanPrefix(lines: seq<CorpusLine>, i: int)
    requires 0 <= i < |lines| - 1
    ensures Scanned(lines, i) == Scanned(lines[..|lines| - 1], i)
    ensures lines[i] == lines[..|lines| - 1][i]
  {
  }

  /** The finished set holds exactly the non-empty URL keys of the records read. */
  lemma {:induction false} ScanFinished(lines: seq<CorpusLine>, normalize: string -> string)
    ensures forall u :: u in Scan(lines, normalize).finished <==> u != "" && KeyRead(lines, u, normalize)
    decreases |lines|
  {
    if lines != [] {
      var n := |lines| - 1;
      var p := lines[..n];
      ScanFinished(p, normalize);
      forall u ensures KeyRead(lines, u, normalize) <==> KeyRead(p, u, normalize) || (Scanned(lines, n) && UrlFieldKey(lines[n].url, normalize) == u) {
        if KeyRead(lines, u, normalize) {
          var i :| Scanned(lines, i) && UrlFieldKey(lines[i].url, normalize) == u;
          if i < n {
            ScanPrefix(lines, i);
          }
        }
        if KeyRead(p, u, normalize) {
          var i :| Scanned(p, i) && UrlFieldKey(p[i].url, normalize) == u;
          ScanPrefix(lines, i);
        }
      }
    }
  }

  /** Every id number read is at most the largest one the scan reports. */
  lemma {:induction false} ScanMaxBounds(lines: seq<CorpusLine>, normalize: string -> string)
    ensures forall i :: Scanned(lines, i) && IdNumber(lines[i].id).Some? ==> IdNumber(lines[i].id).value <= Scan(lines, normalize).maxDocId
    decreases |lines|
  {
    if lines != [] {
      var n := |lines| - 1;
      var p := lines[..n];
      ScanMaxBounds(p, normalize);
      forall i | 0 <= i < n ensures Scanned(lines, i) && IdNumber(lines[i].id).Some? ==> IdNumber(lines[i].id).value <= Scan(lines, normalize).maxDocId {
        ScanPrefix(lines, i);
      }
    }
  }

  /** The largest id the scan reports is 0 or the id number of a record it read. */
  lemma {:induction false} ScanMaxAttained(lines: seq<CorpusLine>, normalize: string -> string)
    ensures Scan(lines, normalize).maxDocId == 0 || IdRead(lines, Scan(lines, normalize).maxDocId)
    decreases |lines|
  {
    if lines != [] {
      var n := |lines| - 1;
      var p := lines[..n];
      ScanMaxAttained(p, normalize);
      var m := Scan(lines, normalize).maxDocId;
      if m != 0 && m == Scan(p, normalize).maxDocId {
        var i :| Scanned(p, i) && IdNumber(p[i].id) == Some(m);
        ScanPrefix(lines, i);
      }
    }
  }

  /** The ids the task loop hands out are read back by the scan as their numbers. */
  lemma {:induction false} DocIdRoundTrip(n: nat)
    ensures IdNumber(Text(DocPrefix + NatToString(n))) == Some(n)
  {
    var w := NatToString(n);
    var s := DocPrefix + w;
    assert s[..|DocPrefix|] == DocPrefix && s[|DocPrefix|..] == w;
    forall i | 0 <= i < |w| ensures !OccursAt(w, DocPrefix, i) {
      OccursAtChar(w, DocPrefix, i, 0);
      assert !IsDigit('d');
    }
    ReplaceAbsent(w, DocPrefix, "");
    assert ReplaceAll(s, DocPrefix, "") == w by {
      assert |s| >= |DocPrefix| && s[..|DocPrefix|] == DocPrefix;
      assert ReplaceAll(s, DocPrefix, "") == "" + ReplaceAll(s[|DocPrefix|..], DocPrefix, "");
    }
    ParseNatToString(n);
    assert IsDigits(w);
  }

  // ----- the task loop (data.py:114-137) -----

  /** `f"doc{n}"` */
  function DocId(n: nat): string {
    DocPrefix + NatToString(n)
  }

  /** The loop's state: the tasks so far and the URL keys seen in this run. */
  datatype TaskState = TaskState(tasks: seq<Task>, seen: set<string>)

  /**
   * What one input item does: an item that is not an object, or whose URL
   * makes `normalize_url` raise, aborts the run (`None`); an item with a
   * false URL is skipped; an item whose URL key is finished or already seen
   * is skipped; any other item becomes a task with the next id.
   */
  function TaskStep(finished: set<string>, lastDocNum: nat, normalize: string -> string, st: TaskState, item: InputItem): Option<TaskState> {
    if !item.Item? || NormalizeRaises(item.url) then None
    else if !item.url.Text? || item.url.s == "" then Some(st)
    else
      var norm := normalize(item.url.s);
      if norm in finished || norm in st.seen then Some(st)
      else Some(TaskState(st.tasks + [Task(DocId(lastDocNum + 1 + |st.tasks|), item.url.s)], st.seen + {norm}))
  }

  /** The state after the loop has run over `items`, or `None` when an item aborts it. */
  function Tasks(finished: set<string>, lastDocNum: nat, normalize: string -> string, items: seq<InputItem>): Option<TaskState> {
    if items == [] then Some(TaskState([], {}))
    else
      var p := Tasks(finished, lastDocNum, normalize, items[..|items| - 1]);
      if p.None? then None else TaskStep(finished, lastDocNum, normalize, p.value, items[|items| - 1])
  }

  /**
   * The task loop of `main` (data.py:114-137), given the finished keys and
   * the last id number of the resume scan. `None` stands for the exception
   * that ends the program.
   */
  method GenerateTasks(finished: set<string>, lastDocNum: nat, items: seq<InputItem>) returns (r: Option<seq<Task>>)
    ensures r.None? <==> Tasks(finished, lastDocNum, NormalizeUrl, items).None?
    ensures r.Some? ==> r.value == Tasks(finished, lastDocNum, NormalizeUrl, items).value.tasks
  {
    var tasks: seq<Task> := [];
    var seenInThisRun: set<string> := {};
    var docCounter := lastDocNum + 1;
    for i := 0 to |items|
      invariant Tasks(finished, lastDocNum, NormalizeUrl, items[..i]) == Some(TaskState(tasks, seenInThisRun))
      invariant docCounter == lastDocNum + 1 + |tasks|
    {
      assert items[..i + 1][..i] == items[..i];
      ghost var next := TaskStep(finished, lastDocNum, NormalizeUrl, TaskState(tasks, seenInThisRun), items[i]);
      assert Tasks(finished, lastDocNum, NormalizeUrl, items[..i + 1]) == next;
      var item := items[i];
      if !item.Item? {
        TasksAbortStick(finished, lastDocNum, NormalizeUrl, items, i + 1);
        return None;
      }
      var rawUrl := item.url;
      if !rawUrl.Text? && !NormalizeRaises(rawUrl) {
        assert next == Some(TaskState(tasks, seenInThisRun));
        continue;
      }
      if rawUrl.Text? && rawUrl.s == "" {
        assert next == Some(TaskState(tasks, seenInThisRun));
        continue;
      }
      if NormalizeRaises(rawUrl) {
        TasksAbortStick(finished, lastDocNum, NormalizeUrl, items, i + 1);
        return None;
      }
      var normUrl := NormalizeUrl(rawUrl.s);
      if normUrl in finished || normUrl in seenInThisRun {
        assert next == Some(TaskState(tasks, seenInThisRun));
        continue;
      }
      assert next == Some(TaskState(tasks + [Task(DocId(docCounter), rawUrl.s)], seenInThisRun + {normUrl}));
      seenInThisRun := seenInThisRun + {normUrl};
      tasks := tasks + [Task(DocId(docCounter), rawUrl.s)];
      docCounter := docCounter + 1;
    }
    assert items[..|items|] == items;
    return Some(tasks);
  }

  /** Once an item has aborted the run, the whole run is aborted. */
  lemma {:induction false} TasksAbortStick(finished: set<string>, lastDocNum: nat, normalize: string -> string, items: seq<InputItem>, i: nat)
    requires i <= |items| && Tasks(finished, lastDocNum, normalize, items[..i]).None?
    ensures Tasks(finished, lastDocNum, normalize, items).None?
    decreases |items| - i
  {
    if i < |items| {
      assert items[..i + 1][..i] == items[..i];
      TasksAbortStick(finished, lastDocNum, normalize, items, i + 1);
    } else {
      assert items[..i] == items;
    }
  }

  /** Item `i` has a non-empty string URL. */
  predicate HasUrl(items: seq<InputItem>, i: int) {
    0 <= i < |items| && items[i].Item? && items[i].url.Text? && items[i].url.s != ""
  }

  /** `item` has a non-empty URL whose key is neither finished nor seen: it becomes a task. */
  predicate Adds(finished: set<string>, normalize: string -> string, st: TaskState, item: InputItem) {
    item.Item? && item.url.Text? && item.url.s != ""
    && normalize(item.url.s) !in finished && normalize(item.url.s) !in st.seen
  }

  /** One step either leaves the state alone or adds the item's task and key. */
  lemma {:induction false} TaskStepCases(finished: set<string>, lastDocNum: nat, normalize: string -> string, st: TaskState, item: InputItem)
    requires TaskStep(finished, lastDocNum, normalize, st, item).Some?
    ensures var st' := TaskStep(finished, lastDocNum, normalize, st, item).value;
      if Adds(finished, normalize, st, item)
      then st' == TaskState(st.tasks + [Task(DocId(lastDocNum + 1 + |st.tasks|), item.url.s)], st.seen + {normalize(item.url.s)})
      else st' == st
  {
  }

  /** The run over all items got past the items before the last one. */
  lemma {:induction false} TasksPrefix(finished: set<string>, lastDocNum: nat, normalize: string -> string, items: seq<InputItem>)
    requires items != [] && Tasks(finished, lastDocNum, normalize, items).Some?
    ensures Tasks(finished, lastDocNum, normalize, items[..|items| - 1]).Some?
    ensures TaskStep(finished, lastDocNum, normalize, Tasks(finished, lastDocNum, normalize, items[..|items| - 1]).value, items[|items| - 1])
      == Tasks(finished, lastDocNum, normalize, items)
  {
  }

  /** Task `i` gets id doc{last + 1 + i}: consecutive ids after the last one in the corpus. */
  lemma {:induction false} TasksIds(finished: set<string>, lastDocNum: nat, normalize: string -> string, items: seq<InputItem>)
    requires Tasks(finished, lastDocNum, normalize, items).Some?
    ensures var ts := Tasks(finished, lastDocNum, normalize, items).value.tasks;
      forall i :: 0 <= i < |ts| ==> ts[i].id == DocId(lastDocNum + 1 + i)
    decreases |items|
  {
    if items != [] {
      var p := items[..|items| - 1];
      TasksPrefix(finished, lastDocNum, normalize, items);
      TasksIds(finished, lastDocNum, normalize, p);
      TaskStepCases(finished, lastDocNum, normalize, Tasks(finished, lastDocNum, normalize, p).value, items[|items| - 1]);
    }
  }

  /** A task URL is the non-empty URL of an input item, exactly as written there. */
  ghost predicate FromItem(items: seq<InputItem>, url: string) {
    exists j :: HasUrl(items, j) && items[j].url.s == url
  }

  /** Every task carries the URL of an item with a non-empty URL. */
  lemma {:induction false} TasksUrls(finished: set<string>, lastDocNum: nat, normalize: string -> string, items: seq<InputItem>)
    requires Tasks(finished, lastDocNum, normalize, items).Some?
    ensures var ts := Tasks(finished, lastDocNum, normalize, items).value.tasks;
      forall i :: 0 <= i < |ts| ==> ts[i].url != "" && FromItem(items, ts[i].url)
    decreases |items|
  {
    if items != [] {
      var n := |items| - 1;
      var p := items[..n];
      TasksPrefix(finished, lastDocNum, normalize, items);
      TasksUrls(finished, lastDocNum, normalize, p);
      TaskStepCases(finished, lastDocNum, normalize, Tasks(finished, lastDocNum, normalize, p).value, items[n]);
      forall url | FromItem(p, url) ensures FromItem(items, url) {
        var j :| HasUrl(p, j) && p[j].url.s == url;
        assert p[j] == items[j];
      }
      if Adds(finished, normalize, Tasks(finished, lastDocNum, normalize, p).value, items[n]) {
        assert HasUrl(items, n);
      }
    }
  }

  /** `u` is the URL key of one of the tasks. */
  predicate TaskKey(ts: seq<Task>, u: string, normalize: string -> string) {
    exists i :: 0 <= i < |ts| && normalize(ts[i].url) == u
  }

  /**
   * The keys seen are exactly the tasks' URL keys; none of them is finished,
   * and no two tasks share one.
   */
  lemma {:induction false} TasksKeys(finished: set<string>, lastDocNum: nat, normalize: string -> string, items: seq<InputItem>)
    requires Tasks(finished, lastDocNum, normalize, items).Some?
    ensures var st := Tasks(finished, lastDocNum, normalize, items).value;
      forall u :: u in st.seen <==> TaskKey(st.tasks, u, normalize)
    ensures var ts := Tasks(finished, lastDocNum, normalize, items).value.tasks;
      forall i :: 0 <= i < |ts| ==> normalize(ts[i].url) !in finished
    ensures var ts := Tasks(finished, lastDocNum, normalize, items).value.tasks;
      forall i, j :: 0 <= i < j < |ts| ==> normalize(ts[i].url) != normalize(ts[j].url)
    decreases |items|
  {
    if items != [] {
      var n := |items| - 1;
      var p := items[..n];
      TasksPrefix(finished, lastDocNum, normalize, items);
      TasksKeys(finished, lastDocNum, normalize, p);
      var st := Tasks(finished, lastDocNum, normalize, p).value;
      TaskStepCases(finished, lastDocNum, normalize, st, items[n]);
      if Adds(finished, normalize, st, items[n]) {
        var t := Task(DocId(lastDocNum + 1 + |st.tasks|), items[n].url.s);
        var ts := st.tasks + [t];
        forall u ensures TaskKey(ts, u, normalize) <==> TaskKey(st.tasks, u, normalize) || normalize(t.url) == u {
          if TaskKey(ts, u, normalize) {
            var i :| 0 <= i < |ts| && normalize(ts[i].url) == u;
            if i < |st.tasks| {
              assert ts[i] == st.tasks[i];
            }
          }
          if TaskKey(st.tasks, u, normalize) {
            var i :| 0 <= i < |st.tasks| && normalize(st.tasks[i].url) == u;
            assert ts[i] == st.tasks[i];
          }
          if normalize(t.url) == u {
            assert ts[|st.tasks|] == t;
          }
        }
        forall i | 0 <= i < |st.tasks| ensures normalize(st.tasks[i].url) != normalize(t.url) {
          assert TaskKey(st.tasks, normalize(st.tasks[i].url), normalize);
        }
      }
    }
  }

  /**
   * No URL is lost: every item with a non-empty URL whose key is not
   * finished has its key among the keys seen.
   */
  lemma {:induction false} TasksComplete(finished: set<string>, lastDocNum: nat, normalize: string -> string, items: seq<InputItem>)
    requires Tasks(finished, lastDocNum, normalize, items).Some?
    ensures forall j :: HasUrl(items, j) && normalize(items[j].url.s) !in finished ==>
      normalize(items[j].url.s) in Tasks(finished, lastDocNum, normalize, items).value.seen
    decreases |items|
  {
    if items != [] {
      var n := |items| - 1;
      var p := items[..n];
      TasksPrefix(finished, lastDocNum, normalize, items);
      TasksComplete(finished, lastDocNum, normalize, p);
      var st := Tasks(finished, lastDocNum, normalize, p).value;
      TaskStepCases(finished, lastDocNum, normalize, st, items[n]);
      forall j | 0 <= j < n ensures HasUrl(items, j) == HasUrl(p, j) && items[j] == p[j] {
      }
    }
  }

  /**
   * The index of the earliest item with a non-empty URL whose key is `u`,
   * or -1 when there is none.
   */
  function FirstKeyed(items: seq<InputItem>, u: string, normalize: string -> string): (r: int)
    ensures -1 <= r < |items|
    ensures r >= 0 ==> HasUrl(items, r) && normalize(items[r].url.s) == u
    ensures r >= 0 ==> forall j :: 0 <= j < r && HasUrl(items, j) ==> normalize(items[j].url.s) != u
    ensures r == -1 ==> forall j :: HasUrl(items, j) ==> normalize(items[j].url.s) != u
    decreases |items|
  {
    if items == [] then -1
    else
      var n := |items| - 1;
      var p := items[..n];
      assert forall j :: 0 <= j < n ==> items[j] == p[j] && (HasUrl(items, j) <==> HasUrl(p, j));
      var r := FirstKeyed(p, u, normalize);
      if r >= 0 then r
      else if HasUrl(items, n) && normalize(items[n].url.s) == u then n
      else -1
  }

  /**
   * Each task carries the URL exactly as written at the earliest item with
   * its key (a later spelling of the same key is dropped), and the tasks
   * follow the order of those items in the input.
   */
  lemma {:induction false} TasksFirstSightings(finished: set<string>, lastDocNum: nat, normalize: string -> string, items: seq<InputItem>)
    requires Tasks(finished, lastDocNum, normalize, items).Some?
    ensures var ts := Tasks(finished, lastDocNum, normalize, items).value.tasks;
      forall i :: 0 <= i < |ts| ==>
        var j := FirstKeyed(items, normalize(ts[i].url), normalize);
        j >= 0 && items[j].url.s == ts[i].url
    ensures var ts := Tasks(finished, lastDocNum, normalize, items).value.tasks;
      forall i, k :: 0 <= i < k < |ts| ==>
        FirstKeyed(items, normalize(ts[i].url), normalize) < FirstKeyed(items, normalize(ts[k].url), normalize)
    decreases |items|
  {
    if items != [] {
      var n := |items| - 1;
      var p := items[..n];
      TasksPrefix(finished, lastDocNum, normalize, items);
      TasksFirstSightings(finished, lastDocNum, normalize, p);
      var st := Tasks(finished, lastDocNum, normalize, p).value;
      TaskStepCases(finished, lastDocNum, normalize, st, items[n]);
      var ts := Tasks(finished, lastDocNum, normalize, items).value.tasks;
      forall i | 0 <= i < |st.tasks|
        ensures FirstKeyed(items, normalize(st.tasks[i].url), normalize) == FirstKeyed(p, normalize(st.tasks[i].url), normalize)
      {
      }
      if Adds(finished, normalize, st, items[n]) {
        var u := normalize(items[n].url.s);
        assert FirstKeyed(p, u, normalize) == -1 by {
          TasksComplete(finished, lastDocNum, normalize, p);
        }
        assert FirstKeyed(items, u, normalize) == n;
        assert ts == st.tasks + [ts[|st.tasks|]];
        forall i | 0 <= i < |st.tasks| ensures ts[i] == st.tasks[i] {
        }
      }
    }
  }

  /** The run aborts exactly when some item is not an object or has a true non-string URL. */
  lemma {:induction false} TasksAbortWhen(finished: set<string>, lastDocNum: nat, normalize: string -> string, items: seq<InputItem>)
    ensures Tasks(finished, lastDocNum, normalize, items).None? <==>
      exists i :: 0 <= i < |items| && (!items[i].Item? || NormalizeRaises(items[i].url))
    decreases |items|
  {
    if items != [] {
      var n := |items| - 1;
      var p := items[..n];
      TasksAbortWhen(finished, lastDocNum, normalize, p);
      forall i | 0 <= i < n ensures items[i] == p[i] {
      }
    }
  }

  // ----- resuming after a run -----

  /** The corpus lines a run appends for `tasks`: one record per task, with its URL and id. */
  function Written(tasks: seq<Task>): (r: seq<CorpusLine>)
    ensures |r| == |tasks|
  {
    if tasks == [] then []
    else
      var t := tasks[|tasks| - 1];
      Written(tasks[..|tasks| - 1]) + [Record(Text(t.url), Text(t.id))]
  }

  /** The non-empty URL keys of `tasks`. */
  function NonEmptyKeys(tasks: seq<Task>, normalize: string -> string): (r: set<string>)
    ensures "" !in r
    ensures forall i :: 0 <= i < |tasks| && normalize(tasks[i].url) != "" ==> normalize(tasks[i].url) in r
  {
    if tasks == [] then {}
    else
      var u := normalize(tasks[|tasks| - 1].url);
      NonEmptyKeys(tasks[..|tasks| - 1], normalize) + (if u != "" then {u} else {})
  }

  /** Appending one more task's record scans that record last. */
  lemma {:induction false} WrittenStep(lines: seq<CorpusLine>, tasks: seq<Task>, normalize: string -> string)
    requires tasks != []
    ensures var t := tasks[|tasks| - 1];
      Scan(lines + Written(tasks), normalize)
      == ScanLine(Scan(lines + Written(tasks[..|tasks| - 1]), normalize), Record(Text(t.url), Text(t.id)), normalize)
    ensures var u := normalize(tasks[|tasks| - 1].url);
      NonEmptyKeys(tasks, normalize) == NonEmptyKeys(tasks[..|tasks| - 1], normalize) + (if u != "" then {u} else {})
  {
    var all := lines + Written(tasks);
    assert all[..|all| - 1] == lines + Written(tasks[..|tasks| - 1]);
  }

  /** Scanning the record of a task whose id reads as a new largest number `k`. */
  lemma {:induction false} ScanRecord(st: ScanState, t: Task, k: nat, normalize: string -> string)
    requires IdNumber(Text(t.id)) == Some(k) && st.maxDocId < k
    ensures var u := normalize(t.url);
      ScanLine(st, Record(Text(t.url), Text(t.id)), normalize) == ScanState(st.finished + (if u != "" then {u} else {}), k)
  {
  }

  /**
   * Scanning the corpus with the records of consecutively numbered tasks
   * appended: the largest id moves up by the number of tasks, and the tasks'
   * non-empty URL keys join the finished set.
   */
  lemma {:induction false} ScanWritten(lines: seq<CorpusLine>, tasks: seq<Task>, normalize: string -> string)
    requires forall i :: 0 <= i < |tasks| ==> tasks[i].id == DocId(Scan(lines, normalize).maxDocId + 1 + i)
    ensures Scan(lines + Written(tasks), normalize)
      == ScanState(Scan(lines, normalize).finished + NonEmptyKeys(tasks, normalize), Scan(lines, normalize).maxDocId + |tasks|)
    decreases |tasks|
  {
    if tasks != [] {
      var pre := tasks[..|tasks| - 1];
      assert forall i :: 0 <= i < |pre| ==> pre[i] == tasks[i];
      ScanWritten(lines, pre, normalize);
      ScanWrittenLast(lines, tasks, normalize);
    } else {
      assert lines + Written(tasks) == lines;
    }
  }

  /** The inductive step of `ScanWritten`: the last task's record on top of the records before it. */
  lemma {:induction false} ScanWrittenLast(lines: seq<CorpusLine>, tasks: seq<Task>, normalize: string -> string)
    requires tasks != []
    requires tasks[|tasks| - 1].id == DocId(Scan(lines, normalize).maxDocId + |tasks|)
    requires Scan(lines + Written(tasks[..|tasks| - 1]), normalize)
      == ScanState(Scan(lines, normalize).finished + NonEmptyKeys(tasks[..|tasks| - 1], normalize), Scan(lines, normalize).maxDocId + |tasks| - 1)
    ensures Scan(lines + Written(tasks), normalize)
      == ScanState(Scan(lines, normalize).finished + NonEmptyKeys(tasks, normalize), Scan(lines, normalize).maxDocId + |tasks|)
  {
    var s, pre := Scan(lines, normalize), tasks[..|tasks| - 1];
    WrittenStep(lines, tasks, normalize);
    ScanNextRecord(Scan(lines + Written(pre), normalize), tasks[|tasks| - 1], s.maxDocId + |tasks|, s.finished, NonEmptyKeys(pre, normalize), normalize);
  }

  /** The record of the task numbered one past the largest id so far adds the task's key and makes its number the largest. */
  lemma {:induction false} ScanNextRecord(st: ScanState, t: Task, k: nat, done: set<string>, added: set<string>, normalize: string -> string)
    requires t.id == DocId(k) && st.maxDocId + 1 == k && st.finished == done + added
    ensures var u := normalize(t.url);
      ScanLine(st, Record(Text(t.url), Text(t.id)), normalize) == ScanState(done + (added + (if u != "" then {u} else {})), k)
  {
    DocIdRoundTrip(k);
    ScanRecord(st, t, k, normalize);
  }

  /**
   * A run followed by a fresh scan of the corpus with the run's records
   * appended continues where it stopped: the next id is after the last one
   * handed out, and every task with a non-empty key is now finished.
   */
  lemma {:induction false} ResumeContinues(lines: seq<CorpusLine>, items: seq<InputItem>, normalize: string -> string)
    requires Tasks(Scan(lines, normalize).finished, Scan(lines, normalize).maxDocId, normalize, items).Some?
    ensures var s := Scan(lines, normalize);
      var ts := Tasks(s.finished, s.maxDocId, normalize, items).value.tasks;
      Scan(lines + Written(ts), normalize) == ScanState(s.finished + NonEmptyKeys(ts, normalize), s.maxDocId + |ts|)
  {
    var s := Scan(lines, normalize);
    var ts := Tasks(s.finished, s.maxDocId, normalize, items).value.tasks;
    TasksIds(s.finished, s.maxDocId, normalize, items);
    ScanWritten(lines, ts, normalize);
  }
}
