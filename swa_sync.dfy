/** The replace protocol of `change_swa_settings`: select the SWA folder,
    find the current preference message, edit its document, flag the old
    messages `\Deleted` (section 6.4.6 of RFC 3501), append the edited
    message (section 6.3.11) and expunge (section 6.4.3) only once the
    append succeeded.

    The IMAP connection is a `Connection` object that records the commands
    it was given; what the server answers is fixed by a `Server` value. The
    script never reads the folder after its first write, so the answers do
    not depend on the writes. */
module SwaSync {
  import opened Common
  import opened ImapResponse
  import opened Preferences

  const PrefsFolder: string := "#Scalix/Oddpost"

  /** The subject SWA gives its preference message. */
  const SubjectMarker: Bytes := Ascii("[prefs(v2.1) data]")

  const DeletedFlag: Bytes := Ascii("\\Deleted")

  /** A command the script sends. */
  datatype Command =
    | Select(folder: string)                  // SELECT
    | ListEnvelopes                           // FETCH 1:* (UID ENVELOPE FLAGS)
    | FetchBody(uid: nat)                     // UID FETCH <uid> (RFC822)
    | FlagDeleted(uids: set<nat>)             // UID STORE <uids> +FLAGS \Deleted
    | Append(folder: string, message: Bytes)  // APPEND <folder> \Seen <date> <message>
    | UnflagDeleted(uid: nat)                 // UID STORE <uid> -FLAGS \Deleted
    | Expunge                                 // EXPUNGE

  /** The server's answers: whether each command succeeds, the message
      count SELECT reports, the envelope listing, and the reply to the body
      fetch of each UID. */
  datatype Server = Server(
    selectOk: bool,
    messageCount: nat,
    listing: FetchReply,
    body: nat -> FetchReply,
    storeOk: bool,
    appendOk: bool)

  /** The exceptions that end `change_swa_settings`. */
  datatype Failure =
    | SelectFailed                            // "Could not select folder"
    | ListingFailed                           // `fetch_from_imap` on the listing: status not OK
    | BodyFetchFailed                         // `fetch_from_imap` on a body: status not OK
    | ResponseBroken(error: ReassemblyError)  // the response reassembler raised
    | XmlRejected                             // `preferences` raised SystemError
    | AppendFailed                            // "Could not save email"
    | UidNotText                              // TypeError from imaplib: an int argument

  datatype Outcome = Done | Raised(failure: Failure)

  /** The commands sent, in order, and how the run ended. */
  datatype Run = Run(sent: seq<Command>, outcome: Outcome)

  /** The IMAP connection. */
  class Connection {
    const server: Server
    var sent: seq<Command>

    constructor (server: Server)
      ensures this.server == server && sent == []
    {
      this.server := server;
      sent := [];
    }

    method SelectFolder(folder: string) returns (ok: bool, count: nat)
      modifies this
      ensures sent == old(sent) + [Select(folder)]
      ensures ok == server.selectOk && count == server.messageCount
    {
      sent := sent + [Select(folder)];
      ok, count := server.selectOk, server.messageCount;
    }

    method FetchListing() returns (reply: FetchReply)
      modifies this
      ensures sent == old(sent) + [ListEnvelopes] && reply == server.listing
    {
      sent := sent + [ListEnvelopes];
      reply := server.listing;
    }

    method FetchMessage(uid: nat) returns (reply: FetchReply)
      modifies this
      ensures sent == old(sent) + [FetchBody(uid)] && reply == server.body(uid)
    {
      sent := sent + [FetchBody(uid)];
      reply := server.body(uid);
    }

    method Store(uids: set<nat>) returns (ok: bool)
      modifies this
      ensures sent == old(sent) + [FlagDeleted(uids)] && ok == server.storeOk
    {
      sent := sent + [FlagDeleted(uids)];
      ok := server.storeOk;
    }

    method Unstore(uid: nat) returns (ok: bool)
      modifies this
      ensures sent == old(sent) + [UnflagDeleted(uid)] && ok == server.storeOk
    {
      sent := sent + [UnflagDeleted(uid)];
      ok := server.storeOk;
    }

    method AppendMessage(folder: string, message: Bytes) returns (ok: bool)
      modifies this
      ensures sent == old(sent) + [Append(folder, message)] && ok == server.appendOk
    {
      sent := sent + [Append(folder, message)];
      ok := server.appendOk;
    }

    method ExpungeFolder()
      modifies this
      ensures sent == old(sent) + [Expunge]
    {
      sent := sent + [Expunge];
    }
  }

  // ---------------------------------------------------------------------
  // Reading the listing

  /** `re.search(rb'UID\s(\d+)', s)` matched at position `p`: the UID. */
  function UidAt(s: Bytes, p: nat): Option<nat> {
    if !OccursAt(s, Ascii("UID"), p) || p + 3 >= |s| || !IsAsciiSpace(s[p + 3]) then None
    else
      var n := Span(s, p + 4, IsAsciiDigit);
      if n == 0 then None else Some(DecimalValue(s[p + 4..p + 4 + n]))
  }

  /** The UID of the leftmost match at or after `from`. */
  function UidFrom(s: Bytes, from: nat): (r: Option<nat>)
    ensures r.Some? ==> exists p :: from <= p <= |s| && UidAt(s, p) == r &&
                                (forall q :: from <= q < p ==> UidAt(s, q).None?)
    ensures r.None? ==> forall p :: from <= p ==> UidAt(s, p).None?
    decreases |s| - from
  {
    if from > |s| then None
    else if UidAt(s, from).Some? then UidAt(s, from)
    else UidFrom(s, from + 1)
  }

  function UidToken(s: Bytes): Option<nat> {
    UidFrom(s, 0)
  }

  /** A line `UID <n> ...` carries the UID `n`. */
  lemma UidTokenRecognised(n: nat, rest: Bytes)
    ensures UidToken(Ascii("UID ") + DecimalDigits(n) + [0x20] + rest) == Some(n)
  {
    var d := DecimalDigits(n);
    var s := Ascii("UID ") + d + [0x20] + rest;
    assert s[..3] == Ascii("UID");
    assert OccursAt(s, Ascii("UID"), 0);
    assert s[3] == 0x20;
    DigitsSpan(s, 4, d);
    assert s[4..4 + |d|] == d;
    DecimalRoundTrip(n);
  }

  /** The test the scanner puts to a listing line: SWA's subject, and not
      flagged `\Deleted`. */
  predicate IsCandidate(line: Bytes) {
    Contains(line, SubjectMarker) && !Contains(line, DeletedFlag)
  }

  /** The message a located body becomes. */
  datatype Found = Found(uid: nat, message: Bytes)

  /** Where the scan ended: the message found, the orphans, the commands
      sent and the exception raised, if any. */
  datatype Scan = Scan(email: Option<Found>, orphans: set<nat>, sent: seq<Command>, failure: Option<Failure>)

  /** `s` with `pre` sent before it. */
  function After(pre: seq<Command>, s: Scan): Scan {
    s.(sent := pre + s.sent)
  }

  /** What one listing line does to the scan, given the message found so
      far and the orphans collected so far: an eligible line either joins
      the orphans or has its body fetched. */
  function ScanLine(server: Server, text: Bytes, email: Option<Found>, orphans: set<nat>): Scan {
    if !IsCandidate(text) || UidToken(text).None? then Scan(email, orphans, [], None)
    else
      var uid := UidToken(text).value;
      if email.Some? then Scan(email, orphans + {uid}, [], None)
      else
        var o := FetchMessageLiteral(server.body(uid));
        Scan(if o.Located? then Some(Found(uid, o.message)) else None, orphans, [FetchBody(uid)],
          if o.Located? || o.NotLocated? then None else Some(FetchFailure(o)))
  }

  /** The loop of `find_swa_preference_email` from line `lines[0]` on:
      line after line until one raises. */
  function ScanLines(server: Server, lines: seq<ResponseLine>, email: Option<Found>, orphans: set<nat>): Scan
    decreases |lines|
  {
    if lines == [] then Scan(email, orphans, [], None)
    else
      var s := ScanLine(server, lines[0].text, email, orphans);
      if s.failure.Some? then s else After(s.sent, ScanLines(server, lines[1..], s.email, s.orphans))
  }

  /** The exception a failed body fetch raises. */
  function FetchFailure(o: LiteralOutcome): Failure {
    if o.Incomplete? then ResponseBroken(o.error) else BodyFetchFailed
  }

  /** `find_swa_preference_email`: the listing is fetched, and an error of
      the reassembler is raised once every line it yielded was scanned. */
  function FindPreferenceEmail(server: Server): Scan {
    if !server.listing.ok then Scan(None, {}, [ListEnvelopes], Some(ListingFailed))
    else
      var r := Reassemble(server.listing.fragments);
      var s := After([ListEnvelopes], ScanLines(server, r.lines, None, {}));
      if s.failure.None? && r.failure.Some? then s.(failure := Some(ResponseBroken(r.failure.value))) else s
  }

  /** The UIDs of the candidate lines that carry one, in order. */
  function Eligible(lines: seq<ResponseLine>): seq<nat>
    decreases |lines|
  {
    if lines == [] then []
    else
      var text := lines[0].text;
      (if IsCandidate(text) && UidToken(text).Some? then [UidToken(text).value] else []) + Eligible(lines[1..])
  }

  function Members(uids: seq<nat>): set<nat> {
    set u | u in uids
  }

  /** The body fetches of `uids`, in order. */
  function Fetches(uids: seq<nat>): seq<Command>
    decreases |uids|
  {
    if uids == [] then [] else [FetchBody(uids[0])] + Fetches(uids[1..])
  }

  /** The first of `uids` whose body fetch does something other than find
      no body: locate one, or fail. */
  function Decisive(server: Server, uids: seq<nat>): (d: nat)
    ensures d <= |uids|
    ensures forall j :: 0 <= j < d ==> FetchMessageLiteral(server.body(uids[j])) == NotLocated
    ensures d < |uids| ==> FetchMessageLiteral(server.body(uids[d])) != NotLocated
    decreases |uids|
  {
    if uids == [] || FetchMessageLiteral(server.body(uids[0])) != NotLocated then 0
    else 1 + Decisive(server, uids[1..])
  }

  /** The eligible UIDs of lines that start with `lines[0]`. */
  lemma EligibleCons(lines: seq<ResponseLine>)
    requires lines != []
    ensures var text := lines[0].text;
      Eligible(lines) ==
        if IsCandidate(text) && UidToken(text).Some? then [UidToken(text).value] + Eligible(lines[1..])
        else Eligible(lines[1..])
  {
  }

  lemma MembersCons(u: nat, us: seq<nat>)
    ensures Members([u] + us) == {u} + Members(us)
  {
    assert forall v :: v in [u] + us <==> v == u || v in us;
  }

  /** Once a message is found, every later eligible line only adds its UID
      to the orphans, and no body is fetched. */
  lemma {:induction false} ScanAfterFound(server: Server, lines: seq<ResponseLine>, f: Found, orphans: set<nat>)
    ensures ScanLines(server, lines, Some(f), orphans) ==
      Scan(Some(f), orphans + (Members(Eligible(lines))), [], None)
    decreases |lines|
  {
    if lines != [] {
      var text := lines[0].text;
      EligibleCons(lines);
      if IsCandidate(text) && UidToken(text).Some? {
        var uid := UidToken(text).value;
        ScanAfterFound(server, lines[1..], f, orphans + {uid});
        MembersCons(uid, Eligible(lines[1..]));
      } else {
        ScanAfterFound(server, lines[1..], f, orphans);
      }
    }
  }

  /** The scan `s` is what the reference description gives for the
      eligible UIDs `us`: bodies are fetched in order until one is located
      or a fetch fails; the located message is the canonical one and the
      UIDs after it are the orphans, whose bodies are never fetched. */
  predicate AgreesWithReference(server: Server, us: seq<nat>, s: Scan) {
    var d := Decisive(server, us);
    if d == |us| then s == Scan(None, {}, Fetches(us), None)
    else
      var o := FetchMessageLiteral(server.body(us[d]));
      s.sent == Fetches(us[..d + 1]) &&
      if o.Located? then s.email == Some(Found(us[d], o.message)) && s.failure.None? && s.orphans == Members(us[d + 1..])
      else s.email.None? && s.orphans == {} && s.failure == Some(FetchFailure(o))
  }

  /** The scanner against the reference description. */
  lemma {:induction false} ScanReference(server: Server, lines: seq<ResponseLine>)
    ensures AgreesWithReference(server, Eligible(lines), ScanLines(server, lines, None, {}))
    decreases |lines|
  {
    if lines != [] {
      var text := lines[0].text;
      var s := ScanLine(server, text, None, {});
      var rest := ScanLines(server, lines[1..], s.email, s.orphans);
      assert ScanLines(server, lines, None, {}) == if s.failure.Some? then s else After(s.sent, rest);
      EligibleCons(lines);
      if IsCandidate(text) && UidToken(text).Some? {
        var uid := UidToken(text).value;
        if FetchMessageLiteral(server.body(uid)).NotLocated? {
          assert s == Scan(None, {}, [FetchBody(uid)], None);
          ScanReference(server, lines[1..]);
          SkipUnlocated(server, uid, Eligible(lines[1..]), rest);
        } else {
          DecisiveFirst(server, lines, uid);
        }
      } else {
        assert s == Scan(None, {}, [], None);
        ScanReference(server, lines[1..]);
      }
    }
  }

  /** An eligible first line whose body fetch is decisive settles the scan. */
  lemma DecisiveFirst(server: Server, lines: seq<ResponseLine>, uid: nat)
    requires lines != [] && IsCandidate(lines[0].text) && UidToken(lines[0].text) == Some(uid)
    requires !FetchMessageLiteral(server.body(uid)).NotLocated?
    ensures AgreesWithReference(server, Eligible(lines), ScanLines(server, lines, None, {}))
  {
    EligibleCons(lines);
    var us := Eligible(lines);
    var outcome := FetchMessageLiteral(server.body(uid));
    var s := ScanLine(server, lines[0].text, None, {});
    assert Decisive(server, us) == 0;
    assert us[..1] == [uid] && us[1..] == Eligible(lines[1..]);
    assert Fetches([uid]) == [FetchBody(uid)];
    if outcome.Located? {
      ScanAfterFound(server, lines[1..], Found(uid, outcome.message), {});
      assert ScanLines(server, lines, None, {}) == After(s.sent, ScanLines(server, lines[1..], s.email, s.orphans));
    } else {
      assert ScanLines(server, lines, None, {}) == s;
    }
  }

  /** A UID whose body is not located only adds its fetch in front. */
  lemma SkipUnlocated(server: Server, uid: nat, us: seq<nat>, s: Scan)
    requires FetchMessageLiteral(server.body(uid)) == NotLocated
    requires AgreesWithReference(server, us, s)
    ensures AgreesWithReference(server, [uid] + us, After([FetchBody(uid)], s))
  {
    var vs := [uid] + us;
    assert vs[1..] == us && vs[0] == uid;
    var d := Decisive(server, us);
    assert Decisive(server, vs) == d + 1;
    if d < |us| {
      assert vs[..d + 2] == [uid] + us[..d + 1];
      assert vs[d + 2..] == us[d + 1..];
      assert vs[d + 1] == us[d];
    } else {
      assert Fetches(vs) == [FetchBody(uid)] + Fetches(us);
    }
  }

  /** `fetch_message_rfc822`: the body fetch, then the first line whose
      announced size some literal has. */
  method FetchMessageRfc822(conn: Connection, uid: nat) returns (email: PreferenceEmail?, failure: Option<Failure>)
    modifies conn
    ensures conn.sent == old(conn.sent) + [FetchBody(uid)]
    ensures var o := FetchMessageLiteral(conn.server.body(uid));
      if o.Located? then
        email != null && fresh(email) && email.uid == uid && email.message == o.message &&
        email.cache == null && failure.None?
      else email == null && failure == if o.NotLocated? then None else Some(FetchFailure(o))
  {
    var reply := conn.FetchMessage(uid);
    if !reply.ok {
      return null, Some(BodyFetchFailed);
    }
    var lines, broken := BuildImapResponseLines(reply.fragments);
    var body := LocateBody(lines);
    if body.Some? {
      email := new PreferenceEmail(uid, body.value);
      return email, None;
    }
    if broken.Some? {
      return null, Some(ResponseBroken(broken.value));
    }
    return null, None;
  }

  /** The `for line in lines` loop of `fetch_message_rfc822`: the body of
      the first line that has one. */
  method LocateBody(lines: seq<ResponseLine>) returns (body: Option<Bytes>)
    ensures body == LocateInLines(lines)
  {
    var i := 0;
    while i < |lines|
      invariant 0 <= i <= |lines|
      invariant LocateInLines(lines) == LocateInLines(lines[i..])
      decreases |lines| - i
    {
      LocateStep(lines, i);
      var size := Rfc822Size(lines[i].text);
      if size.Some? {
        body := FindLiteral(lines[i].literals, size.value);
        if body.Some? {
          return;
        }
      }
      i := i + 1;
    }
    assert lines[i..] == [];
    return None;
  }

  lemma LocateStep(lines: seq<ResponseLine>, i: nat)
    requires i < |lines|
    ensures LocateInLines(lines[i..]) ==
      if MessageLiteral(lines[i]).Some? then MessageLiteral(lines[i]) else LocateInLines(lines[i + 1..])
  {
    assert lines[i..][0] == lines[i] && lines[i..][1..] == lines[i + 1..];
  }

  /** The `for literal in literals` loop of `fetch_message_rfc822`: the
      first literal of the announced size. */
  method FindLiteral(literals: seq<Bytes>, size: nat) returns (r: Option<Bytes>)
    ensures r == FirstOfLength(literals, size)
  {
    var j := 0;
    while j < |literals|
      invariant 0 <= j <= |literals|
      invariant FirstOfLength(literals, size) == FirstOfLength(literals[j..], size)
      decreases |literals| - j
    {
      assert literals[j..][0] == literals[j] && literals[j..][1..] == literals[j + 1..];
      if |literals[j]| == size {
        return Some(literals[j]);
      }
      j := j + 1;
    }
    return None;
  }

  lemma AfterAfter(a: seq<Command>, b: seq<Command>, s: Scan)
    ensures After(a, After(b, s)) == After(a + b, s)
  {
    assert a + (b + s.sent) == (a + b) + s.sent;
  }

  /** One step of the scan, stated on the lines from `i` on. */
  lemma ScanStep(server: Server, lines: seq<ResponseLine>, i: nat, email: Option<Found>, orphans: set<nat>)
    requires i < |lines|
    ensures var s := ScanLine(server, lines[i].text, email, orphans);
      ScanLines(server, lines[i..], email, orphans) ==
        if s.failure.Some? then s else After(s.sent, ScanLines(server, lines[i + 1..], s.email, s.orphans))
  {
    assert lines[i..][0] == lines[i] && lines[i..][1..] == lines[i + 1..];
  }

  /** The body of the loop of `find_swa_preference_email`: one listing line. */
  method ScanListingLine(conn: Connection, text: Bytes, email: PreferenceEmail?, ghost found: Option<Found>, orphans: set<nat>)
    returns (email': PreferenceEmail?, orphans': set<nat>, failure: Option<Failure>)
    requires email == null <==> found.None?
    requires email != null ==> email.uid == found.value.uid && email.message == found.value.message && email.cache == null
    modifies conn
    ensures var s := ScanLine(conn.server, text, found, orphans);
      conn.sent == old(conn.sent) + s.sent && orphans' == s.orphans && failure == s.failure &&
      (email' == null <==> s.email.None?) &&
      (email' != null ==> ((email' == email || fresh(email')) && email'.uid == s.email.value.uid &&
        email'.message == s.email.value.message && email'.cache == null))
  {
    email', orphans', failure := email, orphans, None;
    var uid := UidToken(text);
    if IsCandidate(text) && uid.Some? {
      if email == null {
        email', failure := FetchMessageRfc822(conn, uid.value);
      } else {
        orphans' := orphans + {uid.value};
      }
    }
  }

  /** `find_swa_preference_email`. */
  method FindSwaPreferenceEmail(conn: Connection) returns (email: PreferenceEmail?, orphans: set<nat>, failure: Option<Failure>)
    modifies conn
    ensures var s := FindPreferenceEmail(conn.server);
      conn.sent == old(conn.sent) + s.sent && orphans == s.orphans && failure == s.failure &&
      (email == null <==> s.email.None?) &&
      (email != null ==> (fresh(email) && email.uid == s.email.value.uid &&
        email.message == s.email.value.message && email.cache == null))
  {
    email, orphans, failure := null, {}, None;
    var reply := conn.FetchListing();
    if !reply.ok {
      failure := Some(ListingFailed);
      return;
    }
    var lines, broken := BuildImapResponseLines(reply.fragments);
    email, orphans, failure := ScanListing(conn, lines);
    AppendAssoc(old(conn.sent), [ListEnvelopes], ScanLines(conn.server, lines, None, {}).sent);
    if failure.None? && broken.Some? {
      failure := Some(ResponseBroken(broken.value));
    }
  }

  /** The `for line in lines` loop of `find_swa_preference_email`. */
  method ScanListing(conn: Connection, lines: seq<ResponseLine>) returns (email: PreferenceEmail?, orphans: set<nat>, failure: Option<Failure>)
    modifies conn
    ensures var s := ScanLines(conn.server, lines, None, {});
      conn.sent == old(conn.sent) + s.sent && orphans == s.orphans && failure == s.failure &&
      (email == null <==> s.email.None?) &&
      (email != null ==> (fresh(email) && email.uid == s.email.value.uid &&
        email.message == s.email.value.message && email.cache == null))
  {
    email, orphans, failure := null, {}, None;
    ghost var fetched: seq<Command> := [];
    ghost var found: Option<Found> := None;
    var i := 0;
    while i < |lines|
      invariant 0 <= i <= |lines|
      invariant conn.sent == old(conn.sent) + fetched
      invariant ScanLines(conn.server, lines, None, {}) == After(fetched, ScanLines(conn.server, lines[i..], found, orphans))
      invariant email == null <==> found.None?
      invariant email != null ==> (fresh(email) && email.uid == found.value.uid &&
        email.message == found.value.message && email.cache == null)
      decreases |lines| - i
    {
      ScanStep(conn.server, lines, i, found, orphans);
      ghost var s := ScanLine(conn.server, lines[i].text, found, orphans);
      var error;
      email, orphans, error := ScanListingLine(conn, lines[i].text, email, found, orphans);
      AppendAssoc(old(conn.sent), fetched, s.sent);
      if error.Some? {
        failure := error;
        return;
      }
      AfterAfter(fetched, s.sent, ScanLines(conn.server, lines[i + 1..], s.email, s.orphans));
      fetched := fetched + s.sent;
      found := s.email;
      i := i + 1;
    }
    assert lines[i..] == [];
  }

  // ---------------------------------------------------------------------
  // The replace protocol

  /** How the UID of the rollback reaches imaplib's `uid`: as the decimal
      string `str(uid)`, or as the `int` the script passes. */
  datatype UidArg = Decimal(n: nat) | Integer(n: nat)

  /** `conn.uid('STORE', arg, '-FLAGS', '\\Deleted')` followed by the
      "Could not save email" exception. imaplib appends every argument to a
      bytes command line; an `int` makes that raise TypeError before
      anything is sent, and the TypeError replaces the intended exception. */
  function Unflag(arg: UidArg): Run {
    if arg.Integer? then Run([], Raised(UidNotText))
    else Run([UnflagDeleted(arg.n)], Raised(AppendFailed))
  }

  /** The rollback as the script writes it: the `int` UID. */
  function RollbackAsWritten(uid: nat): Run {
    Unflag(Integer(uid))
  }

  /** The rollback as intended: the UID as text. */
  function Rollback(uid: nat): Run {
    Unflag(Decimal(uid))
  }

  /** The rollback the script as written (`asWritten`) or as intended sends. */
  function RollbackFor(asWritten: bool, uid: nat): Run {
    if asWritten then RollbackAsWritten(uid) else Rollback(uid)
  }

  /** The edited message `as_bytes` returns: the options applied to the
      loaded document, or None when `preferences` raises. */
  function EditedBytes(lib: Library, replaceInvalid: bool, options: seq<(string, string)>, message: Bytes): Option<Bytes> {
    var loaded := LoadPreferences(lib, replaceInvalid, message);
    if loaded.Err? then None
    else Some(lib.setContent(message, lib.serializeXml(ApplyOptions(loaded.value, options))))
  }

  /** The one STORE that flags the orphans and the previous message (UID
      `uid`, 0 for none) for deletion; nothing when there is none of them. */
  function StoreOf(uid: nat, orphans: set<nat>): (r: seq<Command>)
    ensures r == [] <==> uid == 0 && orphans == {}
    ensures r != [] ==> |r| == 1 && r[0].FlagDeleted?
    ensures r != [] ==> forall u :: u in r[0].uids <==> u in orphans || (u == uid && uid != 0)
  {
    var flagged := if uid != 0 then orphans + {uid} else orphans;
    if flagged != {} then [FlagDeleted(flagged)] else []
  }

  /** The writes: flag the orphans and the previous message, append the
      edited message, then expunge or roll back. `uid` is 0 for a message
      made from the template. */
  function WriteRun(server: Server, uid: nat, orphans: set<nat>, edited: Option<Bytes>, asWritten: bool): Run {
    var store := StoreOf(uid, orphans);
    if edited.None? then Run(store, Raised(XmlRejected))
    else
      var saved := store + [Append(PrefsFolder, edited.value)];
      if server.appendOk then Run(saved + [Expunge], Done)
      else if uid != 0 then Run(saved + RollbackFor(asWritten, uid).sent, RollbackFor(asWritten, uid).outcome)
      else Run(saved, Raised(AppendFailed))
  }

  /** Everything after the scan: apply the options, then write. */
  function Finish(server: Server, lib: Library, replaceInvalid: bool, options: seq<(string, string)>,
                  uid: nat, message: Bytes, orphans: set<nat>, asWritten: bool): Run
  {
    var edited := EditedBytes(lib, replaceInvalid, options, message);
    if options != [] && edited.None? then Run([], Raised(XmlRejected))
    else WriteRun(server, uid, orphans, edited, asWritten)
  }

  /** `change_swa_settings` with the rollback as written or as intended. */
  function SyncUsing(server: Server, lib: Library, replaceInvalid: bool, options: seq<(string, string)>,
                     asWritten: bool): Run
  {
    if !server.selectOk then Run([Select(PrefsFolder)], Raised(SelectFailed))
    else
      var scan := Survey(server);
      var pre := [Select(PrefsFolder)] + scan.sent;
      if scan.failure.Some? then Run(pre, Raised(scan.failure.value))
      else
        var r := Finish(server, lib, replaceInvalid, options, EditedUid(scan), EditedMessage(scan, lib), scan.orphans, asWritten);
        Run(pre + r.sent, r.outcome)
  }

  /** The scan of `change_swa_settings`: skipped when SELECT reports an
      empty folder. */
  function Survey(server: Server): Scan {
    if server.messageCount == 0 then Scan(None, {}, [], None) else FindPreferenceEmail(server)
  }

  /** The UID of the message that is edited: the found one's, or 0 for a
      new message. */
  function EditedUid(scan: Scan): nat {
    if scan.email.Some? then scan.email.value.uid else 0
  }

  /** The message that is edited: the found one, or one made from the template. */
  function EditedMessage(scan: Scan, lib: Library): Bytes {
    if scan.email.Some? then scan.email.value.message else NewMessage(lib)
  }

  /** `change_swa_settings` with the rollback as written (the rest of the
      run, the body fetch included, as intended). */
  function SyncWithAsWrittenRollback(server: Server, lib: Library, replaceInvalid: bool, options: seq<(string, string)>): Run {
    SyncUsing(server, lib, replaceInvalid, options, true)
  }

  /** `change_swa_settings` with the rollback it intends. */
  function Sync(server: Server, lib: Library, replaceInvalid: bool, options: seq<(string, string)>): Run {
    SyncUsing(server, lib, replaceInvalid, options, false)
  }

  /** The `for key, value in swa_options.items()` loop: every option goes
      through `preferences`, which raises on the first option when the body
      cannot be parsed and no template may replace it. */
  method ApplySettings(email: PreferenceEmail, lib: Library, replaceInvalid: bool, options: seq<(string, string)>)
    returns (ok: bool)
    requires email.cache == null
    modifies email
    ensures email.message == old(email.message)
    ensures var loaded := LoadPreferences(lib, replaceInvalid, email.message);
      if options == [] then ok && email.cache == null
      else if loaded.Err? then !ok
      else (ok && email.cache != null && fresh(email.cache) &&
        email.cache.fields == ApplyOptions(loaded.value, options))
  {
    ghost var loaded := LoadPreferences(lib, replaceInvalid, email.message);
    var i := 0;
    while i < |options|
      invariant 0 <= i <= |options|
      invariant email.message == old(email.message)
      invariant i == 0 ==> email.cache == null
      invariant i > 0 ==> (loaded.Ok? && email.cache != null && fresh(email.cache) &&
        |email.cache.fields| == |loaded.value| &&
        ApplyOptions(loaded.value, options) == ApplyOptions(email.cache.fields, options[i..]))
      decreases |options| - i
    {
      var prefs := email.Preferences(lib, replaceInvalid);
      if prefs.Err? {
        return false;
      }
      var doc := prefs.value;
      assert ApplyOptions(loaded.value, options) == ApplyOptions(doc.fields, options[i..]) &&
        |doc.fields| == |loaded.value|;
      ghost var before := doc.fields;
      var _ := doc.FindOptionAndChange(options[i].0, options[i].1);
      assert options[i..][0] == options[i] && options[i..][1..] == options[i + 1..];
      ApplyOptionsKeepsSkeleton(before, [options[i]]);
      assert |Skeleton(doc.fields)| == |Skeleton(before)|;
      i := i + 1;
    }
    return true;
  }

  /** `change_swa_settings` after the scan, on the message it settled on. */
  method SaveSettings(conn: Connection, email: PreferenceEmail, orphans: set<nat>, lib: Library,
                      replaceInvalid: bool, options: seq<(string, string)>) returns (outcome: Outcome)
    requires email.cache == null
    modifies conn, email
    ensures var r := Finish(conn.server, lib, replaceInvalid, options, email.uid, old(email.message), orphans, false);
      conn.sent == old(conn.sent) + r.sent && outcome == r.outcome
    ensures var loaded := LoadPreferences(lib, replaceInvalid, old(email.message));
      conn.server.appendOk && loaded.Ok? ==>
        outcome == Done &&
        conn.sent == old(conn.sent) + StoreOf(email.uid, orphans) +
          [Append(PrefsFolder, lib.setContent(old(email.message), lib.serializeXml(ApplyOptions(loaded.value, options)))), Expunge]
  {
    ghost var loaded := LoadPreferences(lib, replaceInvalid, email.message);
    ghost var edited := EditedBytes(lib, replaceInvalid, options, email.message);
    var ok := ApplySettings(email, lib, replaceInvalid, options);
    if !ok {
      return Raised(XmlRejected);
    }
    if loaded.Ok? {
      ApplyOptionsKeepsSkeleton(loaded.value, options);
      assert |Skeleton(ApplyOptions(loaded.value, options))| == |loaded.value|;
      assert CurrentPreferences(lib, replaceInvalid, email.message, email.Cached()) == Ok(ApplyOptions(loaded.value, options));
    }
    outcome := WriteBack(conn, email, orphans, lib, replaceInvalid, edited);
  }

  /** The writes of `change_swa_settings`, on a message whose document
      serialises to `edited`. */
  method WriteBack(conn: Connection, email: PreferenceEmail, orphans: set<nat>, lib: Library,
                   replaceInvalid: bool, ghost edited: Option<Bytes>) returns (outcome: Outcome)
    requires CurrentPreferences(lib, replaceInvalid, email.message, email.Cached()).Ok? <==> edited.Some?
    requires edited.Some? ==>
      edited.value == lib.setContent(email.message, lib.serializeXml(CurrentPreferences(lib, replaceInvalid, email.message, email.Cached()).value))
    modifies conn, email
    ensures var r := WriteRun(conn.server, email.uid, orphans, edited, false);
      conn.sent == old(conn.sent) + r.sent && outcome == r.outcome
    ensures conn.server.appendOk && edited.Some? ==>
      outcome == Done &&
      conn.sent == old(conn.sent) + StoreOf(email.uid, orphans) + [Append(PrefsFolder, edited.value), Expunge]
  {
    var flagged := orphans;
    if email.uid != 0 {
      flagged := flagged + {email.uid};
    }
    if flagged != {} {
      var _ := conn.Store(flagged);
    }
    var bytes := email.AsBytes(lib, replaceInvalid);
    if bytes.Err? {
      return Raised(XmlRejected);
    }
    var saved := conn.AppendMessage(PrefsFolder, bytes.value);
    if !saved {
      if email.uid != 0 {
        var _ := conn.Unstore(email.uid);
      }
      return Raised(AppendFailed);
    }
    conn.ExpungeFolder();
    return Done;
  }

  /** The message `change_swa_settings` edits: the one the scan found, or
      a new one from the template. */
  method SurveyFolder(conn: Connection, lib: Library, count: nat) returns (email: PreferenceEmail?, orphans: set<nat>, failure: Option<Failure>)
    requires count == conn.server.messageCount
    modifies conn
    ensures var s := Survey(conn.server);
      conn.sent == old(conn.sent) + s.sent && orphans == s.orphans && failure == s.failure &&
      (failure.None? ==> (email != null && fresh(email) && email.cache == null &&
        email.uid == EditedUid(s) && email.message == EditedMessage(s, lib)))
  {
    if count == 0 {
      email := CreatePreferenceMessage(lib);
      return email, {}, None;
    }
    email, orphans, failure := FindSwaPreferenceEmail(conn);
    if failure.None? && email == null {
      email := CreatePreferenceMessage(lib);
    }
  }

  /** `change_swa_settings`, with the intended rollback. */
  method ChangeSwaSettings(conn: Connection, lib: Library, replaceInvalid: bool, options: seq<(string, string)>)
    returns (outcome: Outcome)
    modifies conn
    ensures var r := Sync(conn.server, lib, replaceInvalid, options);
      conn.sent == old(conn.sent) + r.sent && outcome == r.outcome
  {
    var ok, count := conn.SelectFolder(PrefsFolder);
    if !ok {
      return Raised(SelectFailed);
    }
    var email, orphans, failure := SurveyFolder(conn, lib, count);
    if failure.Some? {
      return Raised(failure.value);
    }
    ghost var s := Survey(conn.server);
    ghost var f := Finish(conn.server, lib, replaceInvalid, options, EditedUid(s), EditedMessage(s, lib), s.orphans, false);
    SyncAfterScan(conn.server, lib, replaceInvalid, options);
    outcome := SaveSettings(conn, email, orphans, lib, replaceInvalid, options);
    AppendAssoc(old(conn.sent), [Select(PrefsFolder)], s.sent);
    AppendAssoc(old(conn.sent), [Select(PrefsFolder)] + s.sent, f.sent);
  }

  // ---------------------------------------------------------------------
  // Properties of the protocol

  /** A command that only reads the folder. */
  predicate IsRead(c: Command) {
    c.Select? || c.ListEnvelopes? || c.FetchBody?
  }

  predicate OnlyReads(sent: seq<Command>) {
    forall j :: 0 <= j < |sent| ==> IsRead(sent[j])
  }

  lemma {:induction false} ScanLinesOnlyReads(server: Server, lines: seq<ResponseLine>, email: Option<Found>, orphans: set<nat>)
    ensures OnlyReads(ScanLines(server, lines, email, orphans).sent)
    decreases |lines|
  {
    if lines != [] {
      var s := ScanLine(server, lines[0].text, email, orphans);
      if s.failure.None? {
        ScanLinesOnlyReads(server, lines[1..], s.email, s.orphans);
      }
    }
  }

  /** The scan sends nothing that changes the folder. */
  lemma SurveyOnlyReads(server: Server)
    ensures OnlyReads(Survey(server).sent)
  {
    if server.messageCount != 0 && server.listing.ok {
      ScanLinesOnlyReads(server, Reassemble(server.listing.fragments).lines, None, {});
    }
  }

  /** The UIDs flagged `\Deleted` once `sent` has run, from `flagged` on: a
      STORE takes effect when the server accepts it, and EXPUNGE removes
      every flagged message. */
  function Flags(server: Server, sent: seq<Command>, flagged: set<nat>): set<nat>
    decreases |sent|
  {
    if sent == [] then flagged
    else
      var c := sent[0];
      var next :=
        if c.FlagDeleted? && server.storeOk then flagged + c.uids
        else if c.UnflagDeleted? && server.storeOk then flagged - {c.uid}
        else if c.Expunge? then {}
        else flagged;
      Flags(server, sent[1..], next)
  }

  lemma {:induction false} FlagsAppend(server: Server, a: seq<Command>, b: seq<Command>, flagged: set<nat>)
    ensures Flags(server, a + b, flagged) == Flags(server, b, Flags(server, a, flagged))
    decreases |a|
  {
    if a != [] {
      assert (a + b)[0] == a[0] && (a + b)[1..] == a[1..] + b;
      var c := a[0];
      var next :=
        if c.FlagDeleted? && server.storeOk then flagged + c.uids
        else if c.UnflagDeleted? && server.storeOk then flagged - {c.uid}
        else if c.Expunge? then {}
        else flagged;
      FlagsAppend(server, a[1..], b, next);
    } else {
      assert a + b == b;
    }
  }

  lemma {:induction false} ReadsKeepFlags(server: Server, sent: seq<Command>, flagged: set<nat>)
    requires OnlyReads(sent)
    ensures Flags(server, sent, flagged) == flagged
    decreases |sent|
  {
    if sent != [] {
      assert IsRead(sent[0]);
      ReadsKeepFlags(server, sent[1..], flagged);
    }
  }

  /** The run when the previous preference message is flagged and the
      append fails. */
  lemma FailedAppendRun(server: Server, lib: Library, replaceInvalid: bool, options: seq<(string, string)>, asWritten: bool)
    requires server.selectOk && !server.appendOk
    requires var s := Survey(server);
      s.failure.None? && EditedUid(s) != 0 && LoadPreferences(lib, replaceInvalid, EditedMessage(s, lib)).Ok?
    ensures var s := Survey(server);
      var r := SyncUsing(server, lib, replaceInvalid, options, asWritten);
      r.outcome == RollbackFor(asWritten, EditedUid(s)).outcome &&
      exists append: Command :: append.Append? &&
        r.sent == ([Select(PrefsFolder)] + s.sent) + ([FlagDeleted(s.orphans + {EditedUid(s)})] + [append] + RollbackFor(asWritten, EditedUid(s)).sent)
  {
    var s := Survey(server);
    var message := EditedMessage(s, lib);
    var loaded := LoadPreferences(lib, replaceInvalid, message);
    var append := Append(PrefsFolder, lib.setContent(message, lib.serializeXml(ApplyOptions(loaded.value, options))));
    assert append.Append?;
  }

  /** A run in which SELECT, the scan, the parse and the APPEND all
      succeed: SELECT, the reads of the scan, one STORE flagging every
      orphan and the previous message, the APPEND of the message carrying
      the edited document, and EXPUNGE. */
  lemma SyncSucceeds(server: Server, lib: Library, replaceInvalid: bool, options: seq<(string, string)>)
    requires server.selectOk && server.appendOk
    requires var s := Survey(server);
      s.failure.None? && LoadPreferences(lib, replaceInvalid, EditedMessage(s, lib)).Ok?
    ensures var s := Survey(server);
      var message := EditedMessage(s, lib);
      var edited := lib.setContent(message, lib.serializeXml(ApplyOptions(LoadPreferences(lib, replaceInvalid, message).value, options)));
      Sync(server, lib, replaceInvalid, options) ==
        Run([Select(PrefsFolder)] + s.sent + StoreOf(EditedUid(s), s.orphans) + [Append(PrefsFolder, edited), Expunge], Done)
  {
    var s := Survey(server);
    var store := StoreOf(EditedUid(s), s.orphans);
    var pre := [Select(PrefsFolder)] + s.sent;
    var message := EditedMessage(s, lib);
    var edited := lib.setContent(message, lib.serializeXml(ApplyOptions(LoadPreferences(lib, replaceInvalid, message).value, options)));
    AppendAssoc(pre, store, [Append(PrefsFolder, edited), Expunge]);
    assert store + [Append(PrefsFolder, edited)] + [Expunge] == store + [Append(PrefsFolder, edited), Expunge];
  }

  /** The flags after the commands of a failed append: the scan, the STORE
      of `flagged` after the reads `prefix`, the append, and the rollback `tail`. */
  lemma FlagsAfterStore(server: Server, prefix: seq<Command>, flagged: set<nat>, append: Command, tail: seq<Command>)
    requires OnlyReads(prefix) && server.storeOk && append.Append?
    ensures Flags(server, prefix + ([FlagDeleted(flagged)] + [append] + tail), {}) == Flags(server, tail, flagged)
  {
    FlagsAppend(server, prefix, [FlagDeleted(flagged)] + [append] + tail, {});
    ReadsKeepFlags(server, prefix, {});
    FlagsAppend(server, [FlagDeleted(flagged)] + [append], tail, {});
    var written := [FlagDeleted(flagged)] + [append];
    assert written[0] == FlagDeleted(flagged) && written[1..] == [append];
    assert Flags(server, [append], flagged) == flagged by {
      assert [append][1..] == [];
    }
    assert {} + flagged == flagged;
    assert Flags(server, written, {}) == flagged;
  }

  lemma ReadsDoNotExpunge(sent: seq<Command>)
    requires OnlyReads(sent)
    ensures Expunge !in sent
  {
  }

  lemma ReadsBehindSelect(s: seq<Command>)
    requires OnlyReads(s)
    ensures OnlyReads([Select(PrefsFolder)] + s)
  {
    var pre := [Select(PrefsFolder)] + s;
    assert forall j :: 1 <= j < |pre| ==> pre[j] == s[j - 1];
  }

  /** As written, when the append fails after the previous message was
      flagged, the rollback raises TypeError and is never sent: the
      previous preference message stays flagged `\Deleted`. */
  lemma AsWrittenRollbackLeavesPreviousFlagged(server: Server, lib: Library, replaceInvalid: bool, options: seq<(string, string)>)
    requires server.selectOk && server.storeOk && !server.appendOk
    requires var s := Survey(server);
      s.failure.None? && EditedUid(s) != 0 && LoadPreferences(lib, replaceInvalid, EditedMessage(s, lib)).Ok?
    ensures var r := SyncWithAsWrittenRollback(server, lib, replaceInvalid, options);
      r.outcome == Raised(UidNotText) && EditedUid(Survey(server)) in Flags(server, r.sent, {})
  {
    var s := Survey(server);
    FailedAppendRun(server, lib, replaceInvalid, options, true);
    var append: Command :| append.Append? &&
      SyncWithAsWrittenRollback(server, lib, replaceInvalid, options).sent ==
        ([Select(PrefsFolder)] + s.sent) + ([FlagDeleted(s.orphans + {EditedUid(s)})] + [append] + []);
    SurveyOnlyReads(server);
    ReadsBehindSelect(s.sent);
    FlagsAfterStore(server, [Select(PrefsFolder)] + s.sent, s.orphans + {EditedUid(s)}, append, []);
  }

  /** With the intended rollback, a failed append clears the flag of the
      previous preference message again, and the script reports that the
      message could not be saved. */
  lemma FailedAppendRestoresPrevious(server: Server, lib: Library, replaceInvalid: bool, options: seq<(string, string)>)
    requires server.selectOk && server.storeOk && !server.appendOk
    requires var s := Survey(server);
      s.failure.None? && EditedUid(s) != 0 && LoadPreferences(lib, replaceInvalid, EditedMessage(s, lib)).Ok?
    ensures var r := Sync(server, lib, replaceInvalid, options);
      r.outcome == Raised(AppendFailed) && EditedUid(Survey(server)) !in Flags(server, r.sent, {})
  {
    var s := Survey(server);
    var uid := EditedUid(s);
    FailedAppendRun(server, lib, replaceInvalid, options, false);
    var append: Command :| append.Append? &&
      Sync(server, lib, replaceInvalid, options).sent ==
        ([Select(PrefsFolder)] + s.sent) + ([FlagDeleted(s.orphans + {uid})] + [append] + [UnflagDeleted(uid)]);
    SurveyOnlyReads(server);
    ReadsBehindSelect(s.sent);
    FlagsAfterStore(server, [Select(PrefsFolder)] + s.sent, s.orphans + {uid}, append, [UnflagDeleted(uid)]);
    assert [UnflagDeleted(uid)][1..] == [];
  }

  /** The two rollbacks differ only when an append fails. */
  lemma RollbackOnlyOnFailedAppend(server: Server, lib: Library, replaceInvalid: bool, options: seq<(string, string)>)
    requires server.appendOk
    ensures SyncWithAsWrittenRollback(server, lib, replaceInvalid, options) == Sync(server, lib, replaceInvalid, options)
  {
  }

  /** The writes expunge exactly when they succeed, and then EXPUNGE comes
      right after the APPEND. */
  lemma WriteRunExpunges(server: Server, uid: nat, orphans: set<nat>, edited: Option<Bytes>)
    ensures var w := WriteRun(server, uid, orphans, edited, false);
      (Expunge in w.sent <==> w.outcome == Done) &&
      (w.outcome == Done ==> (server.appendOk && |w.sent| >= 2 &&
        w.sent[|w.sent| - 1] == Expunge && w.sent[|w.sent| - 2].Append?))
  {
    var store := StoreOf(uid, orphans);
    assert Expunge !in store;
    if edited.Some? {
      var saved := store + [Append(PrefsFolder, edited.value)];
      assert Expunge !in saved;
      if !server.appendOk && uid != 0 {
        assert Expunge !in Rollback(uid).sent;
      }
    }
  }

  /** The run after a successful SELECT and scan: the reads, then the
      commands of `Finish`. */
  lemma SyncAfterScan(server: Server, lib: Library, replaceInvalid: bool, options: seq<(string, string)>)
    requires server.selectOk && Survey(server).failure.None?
    ensures var s := Survey(server);
      var f := Finish(server, lib, replaceInvalid, options, EditedUid(s), EditedMessage(s, lib), s.orphans, false);
      var r := Sync(server, lib, replaceInvalid, options);
      r.sent == ([Select(PrefsFolder)] + s.sent) + f.sent && r.outcome == f.outcome &&
      OnlyReads([Select(PrefsFolder)] + s.sent)
  {
    SurveyOnlyReads(server);
    ReadsBehindSelect(Survey(server).sent);
  }

  /** EXPUNGE is sent exactly when the run succeeds, as its last command,
      right after the APPEND of the new message. */
  lemma ExpungeOnlyAfterSave(server: Server, lib: Library, replaceInvalid: bool, options: seq<(string, string)>)
    ensures var r := Sync(server, lib, replaceInvalid, options);
      (Expunge in r.sent <==> r.outcome == Done) &&
      (r.outcome == Done ==> (server.appendOk && |r.sent| >= 2 &&
        r.sent[|r.sent| - 1] == Expunge && r.sent[|r.sent| - 2].Append?))
  {
    if server.selectOk {
      var s := Survey(server);
      var pre := [Select(PrefsFolder)] + s.sent;
      SurveyOnlyReads(server);
      ReadsBehindSelect(s.sent);
      ReadsDoNotExpunge(pre);
      if s.failure.None? {
        SyncAfterScan(server, lib, replaceInvalid, options);
        var message := EditedMessage(s, lib);
        var edited := EditedBytes(lib, replaceInvalid, options, message);
        WriteRunExpunges(server, EditedUid(s), s.orphans, edited);
        ExpungeAfterReads(pre, Finish(server, lib, replaceInvalid, options, EditedUid(s), message, s.orphans, false));
      }
    }
  }

  /** The reads `pre` followed by a run `f`: EXPUNGE and the last two
      commands are `f`'s. */
  lemma ExpungeAfterReads(pre: seq<Command>, f: Run)
    requires Expunge !in pre
    requires (Expunge in f.sent <==> f.outcome == Done) &&
      (f.outcome == Done ==> |f.sent| >= 2 && f.sent[|f.sent| - 1] == Expunge && f.sent[|f.sent| - 2].Append?)
    ensures var all := pre + f.sent;
      (Expunge in all <==> f.outcome == Done) &&
      (f.outcome == Done ==> (|all| >= 2 && all[|all| - 1] == Expunge && all[|all| - 2].Append?))
  {
    var all := pre + f.sent;
    if f.outcome == Done {
      assert all[|all| - 1] == f.sent[|f.sent| - 1] && all[|all| - 2] == f.sent[|f.sent| - 2];
    }
  }

  /** The UIDs of the preference messages the listing shows. */
  function Listed(server: Server): set<nat> {
    Members(Eligible(Reassemble(server.listing.fragments).lines))
  }

  /** A scan that ends without an exception found its message and its
      orphans among the listed preference messages. */
  lemma SurveyWithinListing(server: Server)
    requires Survey(server).failure.None?
    ensures Survey(server).orphans <= Listed(server)
    ensures EditedUid(Survey(server)) != 0 ==> EditedUid(Survey(server)) in Listed(server)
  {
    if server.messageCount != 0 {
      var lines := Reassemble(server.listing.fragments).lines;
      var us := Eligible(lines);
      ScanReference(server, lines);
      var d := Decisive(server, us);
      if d < |us| {
        assert us[d] in Members(us);
        assert Members(us[d + 1..]) <= Members(us) by {
          forall u | u in Members(us[d + 1..]) ensures u in Members(us) {
            var k :| 0 <= k < |us[d + 1..]| && us[d + 1..][k] == u;
            assert us[d + 1 + k] == u;
          }
        }
      }
    }
  }

  /** Every `\Deleted` flag `sent` sets or clears is on a UID of `allowed`. */
  predicate TouchesOnly(sent: seq<Command>, allowed: set<nat>) {
    forall j :: 0 <= j < |sent| ==>
      (sent[j].FlagDeleted? ==> sent[j].uids <= allowed) &&
      (sent[j].UnflagDeleted? ==> sent[j].uid in allowed)
  }

  lemma TouchesOnlyAppend(a: seq<Command>, b: seq<Command>, allowed: set<nat>)
    requires TouchesOnly(a, allowed) && TouchesOnly(b, allowed)
    ensures TouchesOnly(a + b, allowed)
  {
    forall j | 0 <= j < |a + b|
      ensures (a + b)[j] == if j < |a| then a[j] else b[j - |a|]
    {
    }
  }

  /** The writes flag and unflag only the orphans and the edited message. */
  lemma WriteRunTouchesOnly(server: Server, uid: nat, orphans: set<nat>, edited: Option<Bytes>, allowed: set<nat>)
    requires orphans <= allowed && (uid != 0 ==> uid in allowed)
    ensures TouchesOnly(WriteRun(server, uid, orphans, edited, false).sent, allowed)
  {
    var store := StoreOf(uid, orphans);
    assert TouchesOnly(store, allowed);
    if edited.Some? {
      var saved := store + [Append(PrefsFolder, edited.value)];
      TouchesOnlyAppend(store, [Append(PrefsFolder, edited.value)], allowed);
      TouchesOnlyAppend(saved, [Expunge], allowed);
      if uid != 0 {
        TouchesOnlyAppend(saved, Rollback(uid).sent, allowed);
      }
    }
  }

  /** Only preference messages from the listing are ever flagged or
      unflagged `\Deleted`. */
  lemma FlagsOnlyListed(server: Server, lib: Library, replaceInvalid: bool, options: seq<(string, string)>)
    ensures TouchesOnly(Sync(server, lib, replaceInvalid, options).sent, Listed(server))
  {
    if server.selectOk {
      var s := Survey(server);
      var pre := [Select(PrefsFolder)] + s.sent;
      SurveyOnlyReads(server);
      ReadsBehindSelect(s.sent);
      assert TouchesOnly(pre, Listed(server)) by {
        forall j | 0 <= j < |pre| ensures IsRead(pre[j]) {
        }
      }
      if s.failure.None? {
        SurveyWithinListing(server);
        SyncAfterScan(server, lib, replaceInvalid, options);
        var message := EditedMessage(s, lib);
        var edited := EditedBytes(lib, replaceInvalid, options, message);
        WriteRunTouchesOnly(server, EditedUid(s), s.orphans, edited, Listed(server));
        TouchesOnlyAppend(pre, Finish(server, lib, replaceInvalid, options, EditedUid(s), message, s.orphans, false).sent, Listed(server));
      }
    }
  }

  /** A body that cannot be parsed, with no template allowed: with options
      to apply nothing is written; with none, the old messages are still
      flagged before the error, and the folder is never expunged. */
  lemma RejectedDocument(server: Server, lib: Library, replaceInvalid: bool, options: seq<(string, string)>)
    requires server.selectOk
    requires var s := Survey(server);
      s.failure.None? && LoadPreferences(lib, replaceInvalid, EditedMessage(s, lib)).Err?
    ensures var r := Sync(server, lib, replaceInvalid, options);
      r.outcome == Raised(XmlRejected) && Expunge !in r.sent &&
      (options != [] ==> OnlyReads(r.sent)) &&
      (options == [] && server.storeOk && EditedUid(Survey(server)) != 0 ==>
        EditedUid(Survey(server)) in Flags(server, r.sent, {}))
  {
    var s := Survey(server);
    var r := Sync(server, lib, replaceInvalid, options);
    var uid := EditedUid(s);
    SurveyOnlyReads(server);
    ReadsBehindSelect(s.sent);
    var pre := [Select(PrefsFolder)] + s.sent;
    var flagged := if uid != 0 then s.orphans + {uid} else s.orphans;
    var store := if flagged != {} then [FlagDeleted(flagged)] else [];
    if options != [] {
      assert r.sent == pre + [];
    } else {
      assert r.sent == pre + store;
      ReadsDoNotExpunge(pre);
      if server.storeOk && uid != 0 {
        FlagsAppend(server, pre, store, {});
        ReadsKeepFlags(server, pre, {});
        assert store[1..] == [];
        assert {} + flagged == flagged;
      }
    }
  }

  /** A folder reported empty is not scanned: after SELECT, nothing is
      fetched, flagged or unflagged. */
  lemma EmptyFolderFetchesNothing(server: Server, lib: Library, replaceInvalid: bool, options: seq<(string, string)>)
    requires server.selectOk && server.messageCount == 0
    ensures var r := Sync(server, lib, replaceInvalid, options);
      |r.sent| >= 1 && r.sent[0] == Select(PrefsFolder) &&
      forall j :: 1 <= j < |r.sent| ==>
        !IsRead(r.sent[j]) && !r.sent[j].FlagDeleted? && !r.sent[j].UnflagDeleted?
  {
  }
}
