/** The Tomcat log grouper: a log is read line by line, each entry that
    starts with a header line (time stamp, `[level]`, `[caller:line]`) is
    kept unless its level or caller is on an ignore list, and the kept
    entries are grouped by the class of their caller.

    The header pattern is a parameter: a partial function from a line to
    the four groups it captures. */
module TomcatLogs {
  import opened Common

  /** The groups the header pattern captures. */
  datatype Groups = Groups(datetime: Bytes, level: Bytes, caller: Bytes, descr: Bytes)

  /** `ErrorDescription`: a parsed header line. */
  datatype ErrorDescription = ErrorDescription(datetime: Bytes, level: Bytes, caller: Bytes, description: Bytes)

  /** What the grouper is configured with: the header pattern and the two
      ignore lists (`None` entries are never equal to a captured group). */
  datatype Config = Config(pattern: Bytes -> Option<Groups>, ignoreLevels: seq<Option<Bytes>>, ignoreCallers: seq<Option<Bytes>>)

  const DefaultIgnoreLevels: seq<Option<Bytes>> := [Some(Ascii("INFO")), None]

  const DefaultIgnoreCallers: seq<Option<Bytes>> := [
    None,
    Some(Ascii("Observance.getLatestOnset")),
    Some(Ascii("Message.parseRecipientHeader")),
    Some(Ascii("ContactsFormatter.formatMessage"))]

  /** `ErrorDescription.__init__`: the level is stored stripped. */
  function Describe(g: Groups): (e: ErrorDescription)
    ensures e.datetime == g.datetime && e.caller == g.caller && e.description == g.descr
    ensures e.level == Trim(g.level, IsAsciiSpace)
  {
    ErrorDescription(g.datetime, Trim(g.level, IsAsciiSpace), g.caller, g.descr)
  }

  /** The stored level has no whitespace at either end, and only
      whitespace was removed around it. */
  lemma LevelStripped(g: Groups)
    ensures var l := Describe(g).level;
      (l != [] ==> !IsAsciiSpace(l[0]) && !IsAsciiSpace(l[|l| - 1])) &&
      exists pre, post :: g.level == pre + l + post && All(pre, IsAsciiSpace) && All(post, IsAsciiSpace)
  {
    TrimShape(g.level, IsAsciiSpace);
  }

  /** `caller_class`: the caller up to its first `.`. */
  function CallerClass(e: ErrorDescription): Bytes {
    Split(e.caller, '.' as int as byte)[0]
  }

  /** The class is a prefix of the caller with no `.` in it, and it is
      followed by a `.` unless it is the whole caller. */
  lemma {:induction false} CallerClassIsFirstPart(caller: Bytes)
    ensures var c := Split(caller, '.' as int as byte)[0];
      StartsWith(caller, c) && (forall j :: 0 <= j < |c| ==> c[j] != '.' as int as byte) &&
      (|c| < |caller| ==> caller[|c|] == '.' as int as byte)
    decreases |caller|
  {
    if caller != [] && caller[0] != '.' as int as byte {
      CallerClassIsFirstPart(caller[1..]);
    }
  }

  /** `get_line_description`: an empty line or one the pattern does not
      match is not a header. */
  function LineDescription(cfg: Config, line: Bytes): (r: Option<ErrorDescription>)
    ensures r.None? <==> line == [] || cfg.pattern(line).None?
    ensures r.Some? ==> r.value == Describe(cfg.pattern(line).value)
  {
    if line == [] then None
    else if cfg.pattern(line).None? then None
    else Some(Describe(cfg.pattern(line).value))
  }

  /** `ignore_error`: a line that is not a header is ignored, and so is a
      header whose level or caller is listed. */
  predicate IgnoreError(cfg: Config, error: Option<ErrorDescription>) {
    error.None? || Some(error.value.level) in cfg.ignoreLevels || Some(error.value.caller) in cfg.ignoreCallers
  }

  /** What a line is to the grouper: no header, an ignored header, or a
      kept header with the class of its caller. */
  datatype Kind = Plain | Ignored | Header(callerClass: Bytes)

  function Classify(cfg: Config, line: Bytes): (k: Kind)
    ensures k.Plain? <==> LineDescription(cfg, line).None?
    ensures k.Ignored? <==> LineDescription(cfg, line).Some? && IgnoreError(cfg, LineDescription(cfg, line))
    ensures k.Header? ==> k.callerClass == CallerClass(LineDescription(cfg, line).value)
  {
    var error := LineDescription(cfg, line);
    if error.None? then Plain
    else if IgnoreError(cfg, error) then Ignored
    else Header(CallerClass(error.value))
  }

  function Kinds(cfg: Config, lines: seq<Bytes>): (kinds: seq<Kind>)
    ensures |kinds| == |lines| && forall j :: 0 <= j < |lines| ==> kinds[j] == Classify(cfg, lines[j])
  {
    seq(|lines|, j requires 0 <= j < |lines| => Classify(cfg, lines[j]))
  }

  /** The state of `group_errors` between two lines; `pending` is the class
      of the caller of `prev`. */
  datatype State = State(
    res: map<Bytes, seq<Bytes>>,
    summary: map<Bytes, nat>,
    pending: Option<Bytes>,
    stacktrace: seq<Bytes>)

  const Start: State := State(map[], map[], None, [])

  /** `__save_data(prev)`: the buffer without its last line is added under
      the class of `prev`, and that class's count goes up by one. */
  function SaveData(st: State, saved: seq<Bytes>): State {
    if st.pending.None? then st
    else
      var k := st.pending.value;
      st.(summary := st.summary[k := Count(st.summary, k) + 1], res := st.res[k := Lines(st.res, k) + saved])
  }

  function Count(summary: map<Bytes, nat>, k: Bytes): nat {
    if k in summary then summary[k] else 0
  }

  function Lines(res: map<Bytes, seq<Bytes>>, k: Bytes): seq<Bytes> {
    if k in res then res[k] else []
  }

  /** One iteration of the loop of `group_errors`. */
  function Step(st: State, kind: Kind, line: Bytes): State {
    if kind.Plain? then st.(stacktrace := st.stacktrace + [line])
    else if kind.Ignored? then SaveData(st, st.stacktrace).(pending := None, stacktrace := [])
    else SaveData(st, st.stacktrace).(pending := Some(kind.callerClass), stacktrace := [line])
  }

  /** The loop of `group_errors` over `lines[n..]`. */
  function Process(kinds: seq<Kind>, lines: seq<Bytes>, n: nat, st: State): State
    requires |kinds| == |lines| && n <= |lines|
    decreases |lines| - n
  {
    if n == |lines| then st else Process(kinds, lines, n + 1, Step(st, kinds[n], lines[n]))
  }

  // ---------------------------------------------------------------------
  // The entries, described directly

  /** The first header (kept or ignored) at or after `from`. */
  function NextHeader(kinds: seq<Kind>, from: nat): (r: Option<nat>)
    requires from <= |kinds|
    ensures r.Some? ==> from <= r.value < |kinds| && !kinds[r.value].Plain?
    ensures r.Some? ==> forall j :: from <= j < r.value ==> kinds[j].Plain?
    ensures r.None? ==> forall j :: from <= j < |kinds| ==> kinds[j].Plain?
    decreases |kinds| - from
  {
    if from == |kinds| then None
    else if !kinds[from].Plain? then Some(from)
    else NextHeader(kinds, from + 1)
  }

  /** A saved entry: the class of its header and its lines. */
  datatype Entry = Entry(callerClass: Bytes, lines: seq<Bytes>)

  /** The entries saved from the first header at or after `from` on: a
      kept header and the lines up to, not including, the next header; an
      entry that no header follows is not saved. */
  function EntriesFrom(kinds: seq<Kind>, lines: seq<Bytes>, from: nat): seq<Entry>
    requires |kinds| == |lines| && from <= |lines|
    decreases |lines| - from
  {
    var i := NextHeader(kinds, from);
    if i.None? then []
    else
      var j := NextHeader(kinds, i.value + 1);
      if j.None? then []
      else
        (if kinds[i.value].Header? then [Entry(kinds[i.value].callerClass, lines[i.value..j.value])] else []) +
        EntriesFrom(kinds, lines, j.value)
  }

  /** The entries of a log. */
  function Entries(cfg: Config, lines: seq<Bytes>): seq<Entry> {
    EntriesFrom(Kinds(cfg, lines), lines, 0)
  }

  /** Every saved entry starts with a kept header of its class, holds no
      other header and is followed by a header: what comes before the first
      kept header, and the last pending entry, are never saved. */
  lemma {:induction false} EntriesAreKeptHeaders(kinds: seq<Kind>, lines: seq<Bytes>, from: nat)
    requires |kinds| == |lines| && from <= |lines|
    ensures forall e :: e in EntriesFrom(kinds, lines, from) ==>
      exists i, j :: from <= i < j < |lines| && e.lines == lines[i..j] && kinds[i] == Header(e.callerClass) &&
        (forall m :: i < m < j ==> kinds[m].Plain?) && !kinds[j].Plain?
    decreases |lines| - from
  {
    var i := NextHeader(kinds, from);
    if i.Some? {
      var j := NextHeader(kinds, i.value + 1);
      if j.Some? {
        EntriesAreKeptHeaders(kinds, lines, j.value);
      }
    }
  }

  /** The number of entries of class `k`. */
  function Total(entries: seq<Entry>, k: Bytes): nat
    decreases |entries|
  {
    if entries == [] then 0 else (if entries[0].callerClass == k then 1 else 0) + Total(entries[1..], k)
  }

  /** The lines of the entries of class `k`, in order. */
  function Collected(entries: seq<Entry>, k: Bytes): seq<Bytes>
    decreases |entries|
  {
    if entries == [] then [] else (if entries[0].callerClass == k then entries[0].lines else []) + Collected(entries[1..], k)
  }

  /** The state machine at line `n` agrees with the direct description
      from line `start` on: `start` is the pending kept header, whose lines
      are buffered, or, with none pending, a point after which no header
      has been read. */
  predicate Consistent(kinds: seq<Kind>, lines: seq<Bytes>, n: nat, st: State, start: nat) {
    |kinds| == |lines| && start <= n <= |lines| &&
    if st.pending.None? then forall j :: start <= j < n ==> kinds[j].Plain?
    else
      start < n && kinds[start] == Header(st.pending.value) &&
      st.stacktrace == lines[start..n] && forall j :: start < j < n ==> kinds[j].Plain?
  }

  lemma {:induction false} NextHeaderSkips(kinds: seq<Kind>, a: nat, b: nat)
    requires a <= b <= |kinds|
    requires forall j :: a <= j < b ==> kinds[j].Plain?
    ensures NextHeader(kinds, a) == NextHeader(kinds, b)
    decreases b - a
  {
    if a < b {
      NextHeaderSkips(kinds, a + 1, b);
    }
  }

  /** For every class, the counts and lines of `st` are those of `before`
      with `entries` added. */
  ghost predicate Emits(st: State, before: State, entries: seq<Entry>) {
    forall k :: Count(st.summary, k) == Count(before.summary, k) + Total(entries, k) &&
      Lines(st.res, k) == Lines(before.res, k) + Collected(entries, k)
  }

  /** The state machine emits exactly the entries of the direct
      description, from the pending header on. */
  lemma {:induction false} ProcessEmitsEntries(kinds: seq<Kind>, lines: seq<Bytes>, n: nat, st: State, start: nat)
    requires Consistent(kinds, lines, n, st, start)
    ensures Emits(Process(kinds, lines, n, st), st, EntriesFrom(kinds, lines, start))
    decreases |lines| - n
  {
    if n == |lines| {
      if st.pending.None? {
        NextHeaderSkips(kinds, start, n);
      } else {
        NextHeaderSkips(kinds, start + 1, n);
      }
      assert EntriesFrom(kinds, lines, start) == [];
    } else if kinds[n].Plain? {
      PlainEmits(kinds, lines, n, st, start);
    } else {
      HeaderEmits(kinds, lines, n, st, start);
    }
  }

  /** The step of `ProcessEmitsEntries` at a line that is not a header. */
  lemma {:induction false} PlainEmits(kinds: seq<Kind>, lines: seq<Bytes>, n: nat, st: State, start: nat)
    requires Consistent(kinds, lines, n, st, start) && n < |lines| && kinds[n].Plain?
    ensures Emits(Process(kinds, lines, n, st), st, EntriesFrom(kinds, lines, start))
    decreases |lines| - n, 0
  {
    var next := Step(st, kinds[n], lines[n]);
    assert Process(kinds, lines, n, st) == Process(kinds, lines, n + 1, next);
    assert Consistent(kinds, lines, n + 1, next, start) by {
      if st.pending.Some? {
        assert lines[start..n + 1] == lines[start..n] + [lines[n]];
      }
    }
    ProcessEmitsEntries(kinds, lines, n + 1, next, start);
    EmitsRebase(Process(kinds, lines, n + 1, next), next, st, EntriesFrom(kinds, lines, start));
  }

  /** The step of `ProcessEmitsEntries` at a header line. */
  lemma {:induction false} HeaderEmits(kinds: seq<Kind>, lines: seq<Bytes>, n: nat, st: State, start: nat)
    requires Consistent(kinds, lines, n, st, start) && n < |lines| && !kinds[n].Plain?
    ensures Emits(Process(kinds, lines, n, st), st, EntriesFrom(kinds, lines, start))
    decreases |lines| - n, 0
  {
    var next := Step(st, kinds[n], lines[n]);
    var resume := if kinds[n].Header? then n else n + 1;
    var final := Process(kinds, lines, n + 1, next);
    assert Process(kinds, lines, n, st) == final;
    EntriesAtHeader(kinds, lines, n, st, start);
    ConsistentAfterHeader(kinds, lines, n, st, start);
    ProcessEmitsEntries(kinds, lines, n + 1, next, resume);
    SavedThenEmits(final, next, st, EntriesFrom(kinds, lines, resume));
  }

  /** The entry a header line saves: the pending one, if any. */
  function PendingEntry(st: State): seq<Entry> {
    if st.pending.Some? then [Entry(st.pending.value, st.stacktrace)] else []
  }

  /** A state that saved the pending entry of `st`, then emitted `rest`,
      has emitted the pending entry followed by `rest`. */
  lemma SavedThenEmits(final: State, next: State, st: State, rest: seq<Entry>)
    requires next.summary == SaveData(st, st.stacktrace).summary && next.res == SaveData(st, st.stacktrace).res
    requires Emits(final, next, rest)
    ensures Emits(final, st, PendingEntry(st) + rest)
  {
    var afterSave := SaveData(st, st.stacktrace);
    SaveEmits(st);
    EmitsRebase(final, next, afterSave, rest);
    EmitsChain(final, afterSave, st, PendingEntry(st), rest);
  }

  /** Only the counts and lines of the starting state matter to `Emits`. */
  lemma EmitsRebase(final: State, before: State, before': State, entries: seq<Entry>)
    requires before.summary == before'.summary && before.res == before'.res
    requires Emits(final, before, entries)
    ensures Emits(final, before', entries)
  {
  }

  /** At a header line `n`, the entries from `start` on are the pending
      one, if any, then those from the new pending header on (`n` when it
      is kept, `n + 1` when it is ignored). */
  lemma EntriesAtHeader(kinds: seq<Kind>, lines: seq<Bytes>, n: nat, st: State, start: nat)
    requires Consistent(kinds, lines, n, st, start) && n < |lines| && !kinds[n].Plain?
    ensures EntriesFrom(kinds, lines, start) ==
      PendingEntry(st) + EntriesFrom(kinds, lines, if kinds[n].Header? then n else n + 1)
  {
    var saved := PendingEntry(st);
    if st.pending.Some? {
      NextHeaderSkips(kinds, start + 1, n);
    } else {
      NextHeaderSkips(kinds, start, n);
    }
    assert EntriesFrom(kinds, lines, start) == saved + EntriesFrom(kinds, lines, n);
    if kinds[n].Ignored? {
      IgnoredHeaderSaves(kinds, lines, n);
    }
  }

  /** An ignored header starts no entry. */
  lemma IgnoredHeaderSaves(kinds: seq<Kind>, lines: seq<Bytes>, n: nat)
    requires |kinds| == |lines| && n < |lines| && kinds[n].Ignored?
    ensures EntriesFrom(kinds, lines, n) == EntriesFrom(kinds, lines, n + 1)
  {
    var j := NextHeader(kinds, n + 1);
    if j.Some? {
      assert NextHeader(kinds, j.value) == j;
      assert EntriesFrom(kinds, lines, n) == [] + EntriesFrom(kinds, lines, j.value);
    }
  }

  /** After a header line the state agrees with the description again. */
  lemma ConsistentAfterHeader(kinds: seq<Kind>, lines: seq<Bytes>, n: nat, st: State, start: nat)
    requires Consistent(kinds, lines, n, st, start) && n < |lines| && !kinds[n].Plain?
    ensures Consistent(kinds, lines, n + 1, Step(st, kinds[n], lines[n]), if kinds[n].Header? then n else n + 1)
  {
    if kinds[n].Header? {
      assert lines[n..n + 1] == [lines[n]];
    }
  }

  /** Saving the pending entry emits it. */
  lemma SaveEmits(st: State)
    ensures Emits(SaveData(st, st.stacktrace), st, PendingEntry(st))
  {
    var saved := PendingEntry(st);
    var after := SaveData(st, st.stacktrace);
    forall k
      ensures Count(after.summary, k) == Count(st.summary, k) + Total(saved, k)
      ensures Lines(after.res, k) == Lines(st.res, k) + Collected(saved, k)
    {
      if st.pending.Some? {
        assert saved[1..] == [];
      }
    }
  }

  lemma EmitsChain(final: State, mid: State, first: State, a: seq<Entry>, b: seq<Entry>)
    requires Emits(mid, first, a) && Emits(final, mid, b)
    ensures Emits(final, first, a + b)
  {
    forall k
      ensures Count(final.summary, k) == Count(first.summary, k) + Total(a + b, k)
      ensures Lines(final.res, k) == Lines(first.res, k) + Collected(a + b, k)
    {
      TotalAppend(a, b, k);
      CollectedAppend(a, b, k);
      AppendAssoc(Lines(first.res, k), Collected(a, k), Collected(b, k));
    }
  }

  lemma {:induction false} TotalAppend(a: seq<Entry>, b: seq<Entry>, k: Bytes)
    ensures Total(a + b, k) == Total(a, k) + Total(b, k)
    decreases |a|
  {
    if a == [] {
      assert a + b == b;
    } else {
      assert (a + b)[0] == a[0] && (a + b)[1..] == a[1..] + b;
      TotalAppend(a[1..], b, k);
    }
  }

  lemma {:induction false} CollectedAppend(a: seq<Entry>, b: seq<Entry>, k: Bytes)
    ensures Collected(a + b, k) == Collected(a, k) + Collected(b, k)
    decreases |a|
  {
    if a == [] {
      assert a + b == b;
    } else {
      assert (a + b)[0] == a[0] && (a + b)[1..] == a[1..] + b;
      CollectedAppend(a[1..], b, k);
    }
  }

  /** `group_errors` on the lines of a file (`None` when there is no such
      file): for every class, `summary` counts the saved entries of that
      class and `res` holds their lines, in order. */
  method GroupErrors(cfg: Config, file: Option<seq<Bytes>>) returns (res: map<Bytes, seq<Bytes>>, summary: map<Bytes, nat>)
    ensures file.None? ==> res == map[] && summary == map[]
    ensures file.Some? ==> forall k ::
      Count(summary, k) == Total(Entries(cfg, file.value), k) &&
      Lines(res, k) == Collected(Entries(cfg, file.value), k)
    ensures res.Keys == summary.Keys && forall k :: k in summary ==> summary[k] > 0
  {
    res, summary := map[], map[];
    if file.None? {
      return;
    }
    var lines := file.value;
    ghost var kinds := Kinds(cfg, lines);
    var stacktrace: seq<Bytes> := [];
    var prev: Option<ErrorDescription> := None;
    ghost var pending: Option<Bytes> := None;
    var i := 0;
    while i < |lines|
      invariant 0 <= i <= |lines|
      invariant res.Keys == summary.Keys && forall k :: k in summary ==> summary[k] > 0
      invariant pending.None? <==> prev.None?
      invariant prev.Some? ==> pending.value == CallerClass(prev.value)
      invariant Process(kinds, lines, 0, Start) == Process(kinds, lines, i, State(res, summary, pending, stacktrace))
      decreases |lines| - i
    {
      var line := lines[i];
      stacktrace := stacktrace + [line];
      var error := LineDescription(cfg, line);
      if IgnoreError(cfg, error) {
        if error.Some? {
          if prev.Some? {
            var k := CallerClass(prev.value);
            summary := summary[k := Count(summary, k) + 1];
            res := res[k := Lines(res, k) + stacktrace[..|stacktrace| - 1]];
          }
          prev := None;
          stacktrace := [];
        }
      } else {
        if prev.Some? {
          var k := CallerClass(prev.value);
          summary := summary[k := Count(summary, k) + 1];
          res := res[k := Lines(res, k) + stacktrace[..|stacktrace| - 1]];
        }
        prev := error;
        stacktrace := stacktrace[|stacktrace| - 1..];
      }
      pending := if prev.Some? then Some(CallerClass(prev.value)) else None;
      i := i + 1;
    }
    ProcessEmitsEntries(kinds, lines, 0, Start, 0);
  }
}
