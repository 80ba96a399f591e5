/** The Exim to Scalix mailbox copy: the source server's folders are
    listed and sorted by name length, each is mapped to its name on
    Scalix, missing destination folders are created, and every message is
    appended to its destination folder with its `\Seen` flag, deleted
    messages going to "Deleted Items".

    The two servers are parameters: which destination folders exist, what
    selecting and searching a source folder gives, and the status the
    destination answers to each append. */
module EximCopy {
  import opened Common

  datatype ServerType = Exim | Scalix

  /** What separates the attributes from the folder name in a `LIST`
      response line of each server. */
  function Splitter(t: ServerType): string {
    match t
    case Exim => " \".\" "
    case Scalix => "\"/\" "
  }

  /** The Exim folders whose Scalix name is fixed. */
  const DefaultCopy: map<string, string> := map[
    "\"INBOX\"" := "INBOX",
    "\"INBOX.Sent\"" := "\"Sent Items\"",
    "\"INBOX.Trash\"" := "\"Deleted Items\"",
    "\"INBOX.Drafts\"" := "Drafts"]

  const DeletedItems: string := "\"Deleted Items\""

  /** `str.replace(".", "/")`. */
  function DotsToSlashes(s: string): (r: string)
    ensures |r| == |s|
    ensures forall i :: 0 <= i < |s| ==> r[i] == (if s[i] == '.' then '/' else s[i])
  {
    seq(|s|, i requires 0 <= i < |s| => if s[i] == '.' then '/' else s[i])
  }

  /** `get_result_folder`: the fixed name for a default folder; otherwise
      a quote followed by the name, dots turned into slashes, with its
      first seven characters dropped (the quote and `INBOX.` of a
      subfolder of the inbox). */
  function ResultFolder(folder: string): string {
    if folder in DefaultCopy then DefaultCopy[folder]
    else
      var t := DotsToSlashes(folder);
      "\"" + (if |t| <= 7 then [] else t[7..])
  }

  /** A default folder maps to its table entry; any other folder's name
      keeps its opening quote, loses its first seven characters and has no
      dot left. A quoted subfolder of the inbox, `"INBOX.` + rest, becomes
      the quote and rest with slashes for dots. */
  lemma ResultFolderShape(folder: string)
    ensures folder in DefaultCopy ==> ResultFolder(folder) == DefaultCopy[folder]
    ensures folder !in DefaultCopy ==>
              var r := ResultFolder(folder);
              r[0] == '"' && |r| == 1 + (if |folder| <= 7 then 0 else |folder| - 7) &&
              (forall i :: 1 <= i < |r| ==> r[i] != '.') &&
              (forall i :: 1 <= i < |r| ==> r[i] == folder[i + 6] || (folder[i + 6] == '.' && r[i] == '/'))
    ensures forall rest :: folder == "\"INBOX." + rest && folder !in DefaultCopy ==>
              ResultFolder(folder) == "\"" + DotsToSlashes(rest)
  {
    forall rest | folder == "\"INBOX." + rest && folder !in DefaultCopy
      ensures ResultFolder(folder) == "\"" + DotsToSlashes(rest)
    {
      assert DotsToSlashes(folder)[7..] == DotsToSlashes(rest);
    }
  }

  /** The folders mapped one by one by `dest`, in order. */
  function MapNames(folders: seq<string>, dest: string -> string): seq<string> {
    if folders == [] then []
    else MapNames(folders[..|folders| - 1], dest) + [dest(folders[|folders| - 1])]
  }

  /** The mapped names line up with the folders, one for one. */
  lemma {:induction false} MapNamesElements(folders: seq<string>, dest: string -> string)
    ensures |MapNames(folders, dest)| == |folders|
    ensures forall i :: 0 <= i < |folders| ==> MapNames(folders, dest)[i] == dest(folders[i])
  {
    if folders != [] {
      var p := folders[..|folders| - 1];
      MapNamesElements(p, dest);
      assert forall i :: 0 <= i < |p| ==> p[i] == folders[i];
    }
  }

  /** `get_result_folders`: the loop that maps the folders one by one, in
      order (its body repeats `get_result_folder`). */
  method ResultFolders(folders: seq<string>) returns (r: seq<string>)
    ensures r == MapNames(folders, ResultFolder)
  {
    r := [];
    for i := 0 to |folders|
      invariant r == MapNames(folders[..i], ResultFolder)
    {
      assert folders[..i + 1][..i] == folders[..i];
      r := r + [ResultFolder(folders[i])];
    }
    assert folders[..|folders|] == folders;
  }

  /** `line.split(sep)[1]`: what lies between the first occurrence of the
      separator and the next one (or the end of the line); `None` where
      the line has no separator and indexing the split raises. */
  function SecondPiece(line: string, sep: string): (r: Option<string>)
    requires |sep| > 0
    ensures r.None? <==> !Contains(line, sep)
    ensures r.Some? ==>
              var start := Find(line, sep, 0).value + |sep|;
              var end := start + |r.value|;
              end <= |line| && line[start..end] == r.value &&
              (end == |line| || OccursAt(line, sep, end)) &&
              forall j :: start <= j < end ==> !OccursAt(line, sep, j)
  {
    var first := Find(line, sep, 0);
    if first.None? then None
    else
      var start := first.value + |sep|;
      var next := Find(line, sep, start);
      if next.None? then Some(line[start..]) else Some(line[start..next.value])
  }

  /** The folder names of a listing, in listing order; `None` if a line
      has no separator. */
  function ListedNames(lines: seq<string>, sep: string): Option<seq<string>>
    requires |sep| > 0
  {
    if lines == [] then Some([])
    else
      var prev := ListedNames(lines[..|lines| - 1], sep);
      var piece := SecondPiece(lines[|lines| - 1], sep);
      if prev.None? then None
      else if piece.None? then None
      else Some(prev.value + [piece.value])
  }

  /** The listing yields one name per line, in order, each the second
      piece of its line, and fails exactly when some line has no
      separator. */
  lemma {:induction false} ListedNamesPieces(lines: seq<string>, sep: string)
    requires |sep| > 0
    ensures var r := ListedNames(lines, sep);
      r.Some? ==> |r.value| == |lines| && forall i :: 0 <= i < |lines| ==> SecondPiece(lines[i], sep) == Some(r.value[i])
    ensures ListedNames(lines, sep).None? <==> exists i :: 0 <= i < |lines| && SecondPiece(lines[i], sep).None?
  {
    if lines != [] {
      var p := lines[..|lines| - 1];
      ListedNamesPieces(p, sep);
      assert forall i :: 0 <= i < |p| ==> p[i] == lines[i];
    }
  }

  predicate SortedByLength(s: seq<string>) {
    forall i, j :: 0 <= i < j < |s| ==> |s[i]| <= |s[j]|
  }

  /** The names of length `n`, in order. */
  function OfLength(s: seq<string>, n: nat): seq<string> {
    if s == [] then []
    else OfLength(s[..|s| - 1], n) + (if |s[|s| - 1]| == n then [s[|s| - 1]] else [])
  }

  /** `x` placed after the last name no longer than it. */
  function Insert(t: seq<string>, x: string): seq<string> {
    if t == [] then [x]
    else if |t[|t| - 1]| <= |x| then t + [x]
    else Insert(t[..|t| - 1], x) + [t[|t| - 1]]
  }

  /** `list.sort(key=len)`, a stable sort by length. */
  function SortByLength(s: seq<string>): seq<string> {
    if s == [] then [] else Insert(SortByLength(s[..|s| - 1]), s[|s| - 1])
  }

  lemma {:induction false} InsertPermutes(t: seq<string>, x: string)
    ensures multiset(Insert(t, x)) == multiset(t) + multiset{x}
    decreases |t|
  {
    if t != [] && |t[|t| - 1]| > |x| {
      var p := t[..|t| - 1];
      assert t == p + [t[|t| - 1]];
      InsertPermutes(p, x);
    }
  }

  predicate NoLongerThan(s: seq<string>, bound: nat) {
    forall i :: 0 <= i < |s| ==> |s[i]| <= bound
  }

  lemma {:induction false} InsertBounded(t: seq<string>, x: string, bound: nat)
    requires NoLongerThan(t, bound) && |x| <= bound
    ensures NoLongerThan(Insert(t, x), bound)
    decreases |t|
  {
    if t != [] && |t[|t| - 1]| > |x| {
      var p := t[..|t| - 1];
      assert NoLongerThan(p, bound);
      InsertBounded(p, x, bound);
    }
  }

  lemma {:induction false} InsertSorted(t: seq<string>, x: string)
    requires SortedByLength(t)
    ensures SortedByLength(Insert(t, x))
    decreases |t|
  {
    if t != [] && |t[|t| - 1]| > |x| {
      var p, y := t[..|t| - 1], t[|t| - 1];
      assert SortedByLength(p);
      assert NoLongerThan(p, |y|);
      InsertSorted(p, x);
      InsertBounded(p, x, |y|);
      var u := Insert(p, x);
      assert Insert(t, x) == u + [y];
      forall i, j | 0 <= i < j < |u + [y]| ensures |(u + [y])[i]| <= |(u + [y])[j]| {
        if j == |u| {
          assert (u + [y])[i] == u[i];
        } else {
          assert (u + [y])[i] == u[i] && (u + [y])[j] == u[j];
        }
      }
    }
  }

  lemma {:induction false} InsertKeepsOrder(t: seq<string>, x: string, n: nat)
    requires SortedByLength(t)
    ensures OfLength(Insert(t, x), n) == OfLength(t, n) + (if |x| == n then [x] else [])
    decreases |t|
  {
    if t == [] {
      assert [x][..0] == [];
    } else if |t[|t| - 1]| <= |x| {
      assert (t + [x])[..|t|] == t;
    } else {
      var p, y := t[..|t| - 1], t[|t| - 1];
      assert SortedByLength(p);
      InsertKeepsOrder(p, x, n);
      var u := Insert(p, x);
      assert (u + [y])[..|u|] == u;
    }
  }

  /** The sort is a permutation, orders names by length, and keeps the
      order of names of the same length. */
  lemma {:induction false} SortByLengthIsStableSort(s: seq<string>)
    ensures multiset(SortByLength(s)) == multiset(s)
    ensures SortedByLength(SortByLength(s))
    ensures forall n: nat :: OfLength(SortByLength(s), n) == OfLength(s, n)
    decreases |s|
  {
    if s != [] {
      var p, x := s[..|s| - 1], s[|s| - 1];
      assert s == p + [x];
      SortByLengthIsStableSort(p);
      InsertPermutes(SortByLength(p), x);
      InsertSorted(SortByLength(p), x);
      forall n: nat ensures OfLength(SortByLength(s), n) == OfLength(s, n) {
        InsertKeepsOrder(SortByLength(p), x, n);
        assert s[..|s| - 1] == p;
      }
    }
  }

  /** `get_folders` over the lines a `LIST` returned: the folder name of
      each line, sorted by length. */
  method GetFolders(lines: seq<string>, serverType: ServerType) returns (r: Option<seq<string>>)
    ensures r.None? <==> ListedNames(lines, Splitter(serverType)).None?
    ensures r.Some? ==> r.value == SortByLength(ListedNames(lines, Splitter(serverType)).value)
  {
    var sep := Splitter(serverType);
    var names: seq<string> := [];
    for i := 0 to |lines|
      invariant ListedNames(lines[..i], sep) == Some(names)
    {
      assert lines[..i + 1][..i] == lines[..i];
      var piece := SecondPiece(lines[i], sep);
      if piece.None? {
        assert ListedNames(lines[..i + 1], sep).None?;
        ListedNamesFails(lines, sep, i + 1);
        return None;
      }
      names := names + [piece.value];
    }
    assert lines[..|lines|] == lines;
    r := Some(SortByLength(names));
  }

  lemma {:induction false} ListedNamesFails(lines: seq<string>, sep: string, k: nat)
    requires |sep| > 0 && k <= |lines|
    requires ListedNames(lines[..k], sep).None?
    ensures ListedNames(lines, sep).None?
    decreases |lines| - k
  {
    if k < |lines| {
      assert lines[..k + 1][..k] == lines[..k];
      ListedNamesFails(lines, sep, k + 1);
    } else {
      assert lines[..k] == lines;
    }
  }

  /** A message as the source server gives it: its flags and its text. */
  datatype Message = Message(flags: string, body: string)

  /** One append to the destination server. */
  datatype Append = Append(folder: string, flags: string, body: string)

  /** The flags given to the copy: `(\Seen)` for a seen message, `()`
      otherwise. */
  function CopyFlags(flags: string): (r: string)
    ensures r == "(\\Seen)" <==> Contains(flags, "\\Seen")
    ensures r == "()" <==> !Contains(flags, "\\Seen")
  {
    "(" + (if Contains(flags, "\\Seen") then "\\Seen" else "") + ")"
  }

  /** Deleted messages go to "Deleted Items", the others to the mapped
      folder. */
  function Destination(flags: string, resultFolder: string): (r: string)
    ensures Contains(flags, "\\Deleted") ==> r == DeletedItems
    ensures !Contains(flags, "\\Deleted") ==> r == resultFolder
  {
    if Contains(flags, "\\Deleted") then DeletedItems else resultFolder
  }

  function AppendFor(m: Message, resultFolder: string): Append {
    Append(Destination(m.flags, resultFolder), CopyFlags(m.flags), m.body)
  }

  /** The appends `status` answered with `"OK"`. */
  function CountOk(appends: seq<Append>, status: Append -> string): nat {
    if appends == [] then 0
    else CountOk(appends[..|appends| - 1], status) + (if status(appends[|appends| - 1]) == "OK" then 1 else 0)
  }

  /** The appends `status` answered with anything else. */
  function CountFailed(appends: seq<Append>, status: Append -> string): nat {
    if appends == [] then 0
    else CountFailed(appends[..|appends| - 1], status) + (if status(appends[|appends| - 1]) == "OK" then 0 else 1)
  }

  lemma {:induction false} CountsSplit(appends: seq<Append>, status: Append -> string)
    ensures CountOk(appends, status) + CountFailed(appends, status) == |appends|
    decreases |appends|
  {
    if appends != [] {
      CountsSplit(appends[..|appends| - 1], status);
    }
  }

  lemma {:induction false} CountOkAppend(a: seq<Append>, b: seq<Append>, status: Append -> string)
    ensures CountOk(a + b, status) == CountOk(a, status) + CountOk(b, status)
    decreases |b|
  {
    if b == [] {
      assert a + b == a;
    } else {
      var p := b[..|b| - 1];
      assert (a + b)[..|a + b| - 1] == a + p;
      CountOkAppend(a, p, status);
    }
  }

  /** What the source server answers: whether a folder can be selected,
      and the messages a search of it finds (`None` when it fails). */
  datatype Source = Source(selectOk: string -> bool, search: string -> Option<seq<Message>>)

  /** The appends of one folder's messages, in order. */
  function FolderAppends(messages: seq<Message>, resultFolder: string): seq<Append> {
    if messages == [] then []
    else FolderAppends(messages[..|messages| - 1], resultFolder) + [AppendFor(messages[|messages| - 1], resultFolder)]
  }

  /** One append per message, in order. */
  lemma {:induction false} FolderAppendsElements(messages: seq<Message>, resultFolder: string)
    ensures |FolderAppends(messages, resultFolder)| == |messages|
    ensures forall i :: 0 <= i < |messages| ==> FolderAppends(messages, resultFolder)[i] == AppendFor(messages[i], resultFolder)
  {
    if messages != [] {
      var p := messages[..|messages| - 1];
      FolderAppendsElements(p, resultFolder);
      assert forall i :: 0 <= i < |p| ==> p[i] == messages[i];
    }
  }

  /** The copy of the folders in order: the appends made, whether a folder
      that cannot be selected or searched stopped it, the number of
      messages found and the number of appends answered `"OK"`. */
  datatype Copied = Copied(appends: seq<Append>, aborted: bool, total: nat, ok: nat)

  /** The appends of one folder, whose messages go to `dest(f)`, or
      `None` when the folder cannot be selected or searched. */
  function FolderCopy(f: string, src: Source, dest: string -> string): Option<seq<Append>> {
    if !src.selectOk(f) || src.search(f).None? then None
    else Some(FolderAppends(src.search(f).value, dest(f)))
  }

  /** The copy of the folders from `j` on, each folder `f` into `dest(f)`. */
  function CopyFrom(folders: seq<string>, j: nat, src: Source, status: Append -> string, dest: string -> string): Copied
    decreases |folders| - j
  {
    if j >= |folders| then Copied([], false, 0, 0)
    else
      match FolderCopy(folders[j], src, dest)
      case None => Copied([], true, 0, 0)
      case Some(here) =>
        var rest := CopyFrom(folders, j + 1, src, status, dest);
        Copied(here + rest.appends, rest.aborted, |here| + rest.total, CountOk(here, status) + rest.ok)
  }

  /** The copy, each folder into its `get_result_folder` name. */
  function CopyFolders(folders: seq<string>, src: Source, status: Append -> string): Copied {
    CopyFrom(folders, 0, src, status, ResultFolder)
  }

  /** The copy `done` so far followed by the copy `rest` of the remaining
      folders. */
  function Then(done: Copied, rest: Copied): Copied {
    Copied(done.appends + rest.appends, rest.aborted, done.total + rest.total, done.ok + rest.ok)
  }

  /** Copying folder `j` moves its appends and counts from the rest of the
      copy to what is done. */
  lemma CopyFromStep(folders: seq<string>, j: nat, src: Source, status: Append -> string, dest: string -> string, done: Copied)
    requires j < |folders| && FolderCopy(folders[j], src, dest).Some?
    ensures var here := FolderCopy(folders[j], src, dest).value;
      Then(done, CopyFrom(folders, j, src, status, dest)) ==
      Then(Copied(done.appends + here, false, done.total + |here|, done.ok + CountOk(here, status)),
           CopyFrom(folders, j + 1, src, status, dest))
  {
    var here := FolderCopy(folders[j], src, dest).value;
    AppendAssoc(done.appends, here, CopyFrom(folders, j + 1, src, status, dest).appends);
  }

  /** The counters: without an abort, the total is the number of appends,
      the OK counter the number answered `"OK"`, and so total minus OK the
      number answered otherwise. */
  lemma {:induction false} CopyCounters(folders: seq<string>, j: nat, src: Source, status: Append -> string, dest: string -> string)
    ensures var c := CopyFrom(folders, j, src, status, dest);
      !c.aborted ==> c.total == |c.appends| && c.ok == CountOk(c.appends, status) &&
                     c.total - c.ok == CountFailed(c.appends, status)
    decreases |folders| - j
  {
    if j < |folders| && FolderCopy(folders[j], src, dest).Some? {
      var here := FolderCopy(folders[j], src, dest).value;
      var rest := CopyFrom(folders, j + 1, src, status, dest);
      CopyCounters(folders, j + 1, src, status, dest);
      CountOkAppend(here, rest.appends, status);
      CountsSplit(CopyFrom(folders, j, src, status, dest).appends, status);
    }
  }

  /** Every append copies a message found in a copied folder: its body,
      `(\Seen)` or `()` as flags as the message was seen or not, and as
      folder "Deleted Items" when the message is `\Deleted`, the mapped
      name of its folder otherwise. */
  lemma {:induction false} AppendsGoWhereMapped(folders: seq<string>, j: nat, src: Source, status: Append -> string, dest: string -> string)
    ensures forall a :: a in CopyFrom(folders, j, src, status, dest).appends ==>
              a.flags in {"(\\Seen)", "()"} &&
              exists k, m :: j <= k < |folders| && src.search(folders[k]).Some? && m in src.search(folders[k]).value &&
                a.body == m.body && a.flags == CopyFlags(m.flags) &&
                a.folder == (if Contains(m.flags, "\\Deleted") then DeletedItems else dest(folders[k]))
    decreases |folders| - j
  {
    if j < |folders| && FolderCopy(folders[j], src, dest).Some? {
      AppendsGoWhereMapped(folders, j + 1, src, status, dest);
      var messages := src.search(folders[j]).value;
      var here := FolderCopy(folders[j], src, dest).value;
      FolderAppendsElements(messages, dest(folders[j]));
      forall a | a in here
        ensures a.flags in {"(\\Seen)", "()"}
        ensures exists m :: m in messages && a.body == m.body && a.flags == CopyFlags(m.flags) &&
                            a.folder == (if Contains(m.flags, "\\Deleted") then DeletedItems else dest(folders[j]))
      {
        var i :| 0 <= i < |here| && here[i] == a;
        assert messages[i] in messages;
      }
    }
  }

  /** The run's report: the listing could not be read, a folder stopped
      the copy (`-1`), or the totals printed at the end. */
  datatype Outcome = ListingFailed | Aborted | Finished(total: nat, ok: nat, errors: int)

  /** The whole copy: folders created on the destination, appends made,
      and the report. */
  datatype Run = Run(creates: seq<string>, appends: seq<Append>, outcome: Outcome)

  /** The destination folders to create: a `CREATE` of `name/` for each
      name a `SELECT` does not find, in order. */
  function Creates(results: seq<string>, exists_: string -> bool): seq<string> {
    if results == [] then []
    else
      var last := results[|results| - 1];
      Creates(results[..|results| - 1], exists_) + (if exists_(last) then [] else [last + "/"])
  }

  /** Exactly the names a select does not find are created, each with a
      trailing slash. */
  lemma {:induction false} CreatesExactly(results: seq<string>, exists_: string -> bool)
    ensures forall c :: c in Creates(results, exists_) <==>
              exists k :: 0 <= k < |results| && !exists_(results[k]) && c == results[k] + "/"
  {
    if results != [] {
      var p := results[..|results| - 1];
      CreatesExactly(p, exists_);
      assert forall k :: 0 <= k < |p| ==> p[k] == results[k];
    }
  }

  /** The whole copy: the listing, the folders to create, the copy and its
      report. */
  function CopyMailbox(listing: seq<string>, exists_: string -> bool, src: Source, status: Append -> string): Run {
    var listed := ListedNames(listing, Splitter(Exim));
    if listed.None? then Run([], [], ListingFailed)
    else
      var folders := SortByLength(listed.value);
      Report(Creates(MapNames(folders, ResultFolder), exists_), CopyFolders(folders, src, status))
  }

  /** The run after the folders are created and copied: `-1` when a
      folder stopped the copy, otherwise the totals and their difference. */
  function Report(creates: seq<string>, c: Copied): Run {
    Run(creates, c.appends, if c.aborted then Aborted else Finished(c.total, c.ok, c.total - c.ok))
  }

  /** The reported error count is the number of appends not answered
      `"OK"`, and it is never negative. */
  lemma ReportedErrors(listing: seq<string>, exists_: string -> bool, src: Source, status: Append -> string)
    ensures var r := CopyMailbox(listing, exists_, src, status);
      r.outcome.Finished? ==>
        r.outcome.total == |r.appends| && r.outcome.ok == CountOk(r.appends, status) &&
        r.outcome.errors == CountFailed(r.appends, status) && r.outcome.errors >= 0
  {
    var listed := ListedNames(listing, Splitter(Exim));
    if listed.Some? {
      CopyCounters(SortByLength(listed.value), 0, src, status, ResultFolder);
    }
  }

  /** The body of the message loop: the flags built from `(`, `\Seen`
      when the message is seen, and `)`, and the destination switched to
      "Deleted Items" for a deleted message. */
  method MessageAppend(m: Message, resultFolder: string) returns (a: Append)
    ensures a == AppendFor(m, resultFolder)
  {
    var flags := "(";
    if Contains(m.flags, "\\Seen") {
      flags := flags + "\\Seen";
    }
    flags := flags + ")";
    var folder := resultFolder;
    if Contains(m.flags, "\\Deleted") {
      folder := DeletedItems;
    }
    a := Append(folder, flags, m.body);
  }

  /** The copy of one folder's messages: each appended, the answers
      `"OK"` counted. */
  method CopyMessages(messages: seq<Message>, resultFolder: string, status: Append -> string)
    returns (appends: seq<Append>, ok: nat)
    ensures appends == FolderAppends(messages, resultFolder)
    ensures ok == CountOk(appends, status)
  {
    appends, ok := [], 0;
    for i := 0 to |messages|
      invariant appends == FolderAppends(messages[..i], resultFolder)
      invariant ok == CountOk(appends, status)
    {
      var a := MessageAppend(messages[i], resultFolder);
      assert messages[..i + 1][..i] == messages[..i];
      assert (appends + [a])[..|appends|] == appends;
      if status(a) == "OK" {
        ok := ok + 1;
      }
      appends := appends + [a];
      assert FolderAppends(messages[..i + 1], resultFolder) == appends;
    }
    assert messages[..|messages|] == messages;
  }

  /** The folder-creation loop: a `CREATE` of `name/` for each mapped
      name a `SELECT` on the destination does not find. */
  method CreateFolders(results: seq<string>, exists_: string -> bool) returns (creates: seq<string>)
    ensures creates == Creates(results, exists_)
  {
    creates := [];
    for i := 0 to |results|
      invariant creates == Creates(results[..i], exists_)
    {
      assert results[..i + 1][..i] == results[..i];
      if !exists_(results[i]) {
        creates := creates + [results[i] + "/"];
      }
    }
    assert results[..|results|] == results;
  }

  /** One iteration of the folder loop: select the folder, search it, add
      the number of messages found to the total and copy them; `None`
      where the script returns `-1`. */
  method CopyFolder(f: string, src: Source, status: Append -> string, dest: string -> string)
    returns (here: Option<seq<Append>>, count: nat, okHere: nat)
    ensures here == FolderCopy(f, src, dest)
    ensures here.Some? ==> count == |here.value| && okHere == CountOk(here.value, status)
  {
    if !src.selectOk(f) {
      return None, 0, 0;
    }
    var found := src.search(f);
    if found.None? {
      return None, 0, 0;
    }
    count := |found.value|;
    var appends;
    var resultFolder := dest(f);
    appends, okHere := CopyMessages(found.value, resultFolder, status);
    FolderAppendsElements(found.value, resultFolder);
    here := Some(appends);
  }

  /** The copy loop over the sorted folders, with its two counters. */
  method CopyAll(folders: seq<string>, src: Source, status: Append -> string, dest: string -> string) returns (c: Copied)
    ensures c == CopyFrom(folders, 0, src, status, dest)
  {
    var appends: seq<Append> := [];
    var total: nat, ok: nat := 0, 0;
    var j := 0;
    while j < |folders|
      invariant 0 <= j <= |folders|
      invariant CopyFrom(folders, 0, src, status, dest) == Then(Copied(appends, false, total, ok), CopyFrom(folders, j, src, status, dest))
    {
      var here, count, okHere := CopyFolder(folders[j], src, status, dest);
      if here.None? {
        assert appends + [] == appends;
        return Copied(appends, true, total, ok);
      }
      CopyFromStep(folders, j, src, status, dest, Copied(appends, false, total, ok));
      appends := appends + here.value;
      total := total + count;
      ok := ok + okHere;
      j := j + 1;
    }
    assert appends + [] == appends;
    c := Copied(appends, false, total, ok);
  }

  /** `imap4_append_messages`: list and sort the source folders, create
      the missing destination folders, then copy folder by folder,
      stopping at a folder that cannot be selected or searched. */
  method AppendMessages(listing: seq<string>, exists_: string -> bool, src: Source, status: Append -> string)
    returns (run: Run)
    ensures run == CopyMailbox(listing, exists_, src, status)
  {
    var listed := GetFolders(listing, Exim);
    if listed.None? {
      return Run([], [], ListingFailed);
    }
    var folders := listed.value;
    var results := ResultFolders(folders);
    var creates := CreateFolders(results, exists_);
    var c := CopyAll(folders, src, status, ResultFolder);
    if c.aborted {
      return Report(creates, c);
    }
    run := Report(creates, c);
  }
}
