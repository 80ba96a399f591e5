/** The IMAP response reassembler of `change_swa_preferences.py`.

    imaplib hands back a FETCH response as a flat list whose elements are
    either a plain line or a `(text, literal)` pair, where the text ends
    with the literal's announcement `{N}` (section 4.3 of RFC 3501).
    `build_imap_response_line` regroups that list into logical response
    lines, closing a line at the first fragment whose text ends in `)`,
    the end of the parenthesised FETCH data list (section 7.4.2 of
    RFC 3501). `fetch_message_rfc822` then looks for the `RFC822 {N}`
    announcement in a line and for a literal of exactly N bytes. */
module ImapResponse {
  import opened Common

  const CloseParen: byte := 0x29
  const OpenBrace: byte := 0x7b
  const CloseBrace: byte := 0x7d

  /** One element of imaplib's response list. */
  datatype Fragment = Plain(text: Bytes) | WithLiteral(text: Bytes, literal: Bytes)

  /** One logical response line: its text and the literals it carries, in order. */
  datatype ResponseLine = ResponseLine(text: Bytes, literals: seq<Bytes>)

  /** Why the generator stopped before the end of the fragments. */
  datatype ReassemblyError =
    | Truncated      // the fragments ran out inside a line: `__next__` raises StopIteration
    | EmptyFragment  // a fragment with empty text: `line[-1]` raises IndexError

  /** The lines the generator yields, and the error it raises after them, if any. */
  datatype Reassembly = Reassembly(lines: seq<ResponseLine>, failure: Option<ReassemblyError>)

  predicate ClosesLine(text: Bytes) {
    |text| > 0 && text[|text| - 1] == CloseParen
  }

  /** Adds one fragment to the line being built. */
  function Absorb(acc: ResponseLine, f: Fragment): ResponseLine {
    match f
    case Plain(t) => ResponseLine(acc.text + t, acc.literals)
    case WithLiteral(t, lit) => ResponseLine(acc.text + t, acc.literals + [lit])
  }

  /** All the text parts of `frags`, concatenated. */
  function Texts(frags: seq<Fragment>): Bytes
    decreases |frags|
  {
    if frags == [] then [] else frags[0].text + Texts(frags[1..])
  }

  /** The literal parts of the pair fragments of `frags`, in order. */
  function Literals(frags: seq<Fragment>): seq<Bytes>
    decreases |frags|
  {
    if frags == [] then []
    else (if frags[0].WithLiteral? then [frags[0].literal] else []) + Literals(frags[1..])
  }

  /** The texts of `lines`, concatenated. */
  function LineTexts(lines: seq<ResponseLine>): Bytes
    decreases |lines|
  {
    if lines == [] then [] else lines[0].text + LineTexts(lines[1..])
  }

  /** The literals of `lines`, concatenated. */
  function LineLiterals(lines: seq<ResponseLine>): seq<Bytes>
    decreases |lines|
  {
    if lines == [] then [] else lines[0].literals + LineLiterals(lines[1..])
  }

  datatype Group = Closed(line: ResponseLine, rest: seq<Fragment>) | Broken(error: ReassemblyError)

  /** The inner `while True` loop: extends `acc` fragment by fragment until a
      text ends in `)`. A closed group keeps every byte and literal it consumed. */
  function TakeGroup(frags: seq<Fragment>, acc: ResponseLine): (g: Group)
    ensures g.Closed? ==> |g.rest| < |frags|
    decreases |frags|
  {
    if frags == [] then Broken(Truncated)
    else
      var acc' := Absorb(acc, frags[0]);
      if frags[0].text == [] then Broken(EmptyFragment)
      else if ClosesLine(frags[0].text) then Closed(acc', frags[1..])
      else TakeGroup(frags[1..], acc')
  }

  const NoLine := ResponseLine([], [])

  /** What a closed group leaves is a suffix of the fragments. */
  lemma {:induction false} GroupRestIsSuffix(frags: seq<Fragment>, acc: ResponseLine)
    ensures var g := TakeGroup(frags, acc);
      g.Closed? ==> g.rest == frags[|frags| - |g.rest|..]
    decreases |frags|
  {
    if frags != [] && frags[0].text != [] && !ClosesLine(frags[0].text) {
      var t := frags[1..];
      GroupRestIsSuffix(t, Absorb(acc, frags[0]));
      var g := TakeGroup(t, Absorb(acc, frags[0]));
      if g.Closed? {
        assert t[|t| - |g.rest|..] == frags[|frags| - |g.rest|..];
      }
    }
  }

  /** A closed group ends in `)` and keeps every byte and literal it consumed. */
  lemma {:induction false} GroupKeepsContent(frags: seq<Fragment>, acc: ResponseLine)
    ensures var g := TakeGroup(frags, acc);
      g.Closed? ==>
        ClosesLine(g.line.text) &&
        acc.text + Texts(frags) == g.line.text + Texts(g.rest) &&
        acc.literals + Literals(frags) == g.line.literals + Literals(g.rest)
    decreases |frags|
  {
    if frags != [] && frags[0].text != [] {
      var f := frags[0];
      var acc' := Absorb(acc, f);
      var lit := if f.WithLiteral? then [f.literal] else [];
      assert acc'.text == acc.text + f.text && acc'.literals == acc.literals + lit;
      calc {
        acc.text + Texts(frags);
        acc.text + (f.text + Texts(frags[1..]));
        { AppendAssoc(acc.text, f.text, Texts(frags[1..])); }
        acc'.text + Texts(frags[1..]);
      }
      calc {
        acc.literals + Literals(frags);
        acc.literals + (lit + Literals(frags[1..]));
        { AppendAssoc(acc.literals, lit, Literals(frags[1..])); }
        acc'.literals + Literals(frags[1..]);
      }
      if !ClosesLine(f.text) {
        GroupKeepsContent(frags[1..], acc');
      }
    }
  }

  /** What `build_imap_response_line` yields for `frags`. */
  function Reassemble(frags: seq<Fragment>): Reassembly
    decreases |frags|
  {
    if frags == [] then Reassembly([], None)
    else match TakeGroup(frags, NoLine)
      case Broken(e) => Reassembly([], Some(e))
      case Closed(line, rest) =>
        var tail := Reassemble(rest);
        Reassembly([line] + tail.lines, tail.failure)
  }

  /** `build_imap_response_line`, with the generator's output collected:
      the lines it yields, then the error that stops it, if any. */
  method BuildImapResponseLines(frags: seq<Fragment>) returns (lines: seq<ResponseLine>, failure: Option<ReassemblyError>)
    ensures Reassembly(lines, failure) == Reassemble(frags)
  {
    lines, failure := [], None;
    var i := 0;
    while i < |frags|
      invariant 0 <= i <= |frags|
      invariant Reassemble(frags).lines == lines + Reassemble(frags[i..]).lines
      invariant Reassemble(frags).failure == Reassemble(frags[i..]).failure
      decreases |frags| - i
    {
      var line, next, error := ReadLine(frags, i);
      ReassembleStep(frags, i);
      if error.Some? {
        failure := error;
        return;
      }
      lines := lines + [line];
      i := next;
    }
    assert frags[i..] == [];
  }

  /** One pass of the generator's inner `while True` loop, starting at
      fragment `i`: the line it closes and where the next one starts, or
      the error it raises. */
  method ReadLine(frags: seq<Fragment>, i: nat) returns (line: ResponseLine, next: nat, error: Option<ReassemblyError>)
    requires i < |frags|
    ensures error.None? ==> i < next <= |frags| && TakeGroup(frags[i..], NoLine) == Closed(line, frags[next..])
    ensures error.Some? ==> TakeGroup(frags[i..], NoLine) == Broken(error.value)
  {
    var text: Bytes, literals: seq<Bytes> := [], [];
    var j := i;
    while true
      invariant i <= j < |frags|
      invariant TakeGroup(frags[i..], NoLine) == TakeGroup(frags[j..], ResponseLine(text, literals))
      decreases |frags| - j
    {
      var f := frags[j];
      ghost var acc := ResponseLine(text, literals);
      TakeGroupStep(frags, j, acc);
      if f.WithLiteral? {
        literals := literals + [f.literal];
      }
      text := text + f.text;
      assert ResponseLine(text, literals) == Absorb(acc, f);
      if |f.text| == 0 {
        line, next, error := NoLine, 0, Some(EmptyFragment);
        return;
      }
      if f.text[|f.text| - 1] == CloseParen {
        break;
      }
      if j + 1 == |frags| {
        line, next, error := NoLine, 0, Some(Truncated);
        return;
      }
      j := j + 1;
    }
    line, next, error := ResponseLine(text, literals), j + 1, None;
  }

  /** One step of the outer loop, stated on the suffix that starts at `i`. */
  lemma ReassembleStep(frags: seq<Fragment>, i: nat)
    requires i < |frags|
    ensures match TakeGroup(frags[i..], NoLine)
      case Broken(e) => Reassemble(frags[i..]) == Reassembly([], Some(e))
      case Closed(line, rest) =>
        Reassemble(frags[i..]) == Reassembly([line] + Reassemble(rest).lines, Reassemble(rest).failure)
  {
  }

  /** One step of the inner loop, stated on the suffix that starts at `j`. */
  lemma TakeGroupStep(frags: seq<Fragment>, j: nat, acc: ResponseLine)
    requires j < |frags|
    ensures var f := frags[j];
      TakeGroup(frags[j..], acc) ==
        if f.text == [] then Broken(EmptyFragment)
        else if ClosesLine(f.text) then Closed(Absorb(acc, f), frags[j + 1..])
        else if j + 1 == |frags| then Broken(Truncated)
        else TakeGroup(frags[j + 1..], Absorb(acc, f))
  {
    assert frags[j..][0] == frags[j] && frags[j..][1..] == frags[j + 1..];
  }

  /** Every yielded line ends in `)`: no partial line is ever yielded. */
  lemma {:induction false} LinesAreClosed(frags: seq<Fragment>)
    ensures forall k :: 0 <= k < |Reassemble(frags).lines| ==> ClosesLine(Reassemble(frags).lines[k].text)
    decreases |frags|
  {
    if frags != [] {
      match TakeGroup(frags, NoLine)
      case Broken(_) =>
      case Closed(line, rest) =>
        GroupKeepsContent(frags, NoLine);
        LinesAreClosed(rest);
    }
  }

  /** The yielded lines are the fragment stream cut into pieces: their texts
      and literals, concatenated, begin the texts and literals of the
      fragments, and what follows is exactly that of the fragments after
      the last line; nothing follows when the generator ends normally. */
  lemma {:induction false} NothingLostOrDuplicated(frags: seq<Fragment>)
    ensures exists k :: 0 <= k <= |frags| &&
                        Texts(frags) == LineTexts(Reassemble(frags).lines) + Texts(frags[k..]) &&
                        Literals(frags) == LineLiterals(Reassemble(frags).lines) + Literals(frags[k..]) &&
                        (Reassemble(frags).failure.None? ==> k == |frags|)
    decreases |frags|
  {
    var r := Reassemble(frags);
    if frags == [] {
      assert frags[0..] == frags;
    } else {
      match TakeGroup(frags, NoLine)
      case Broken(_) =>
        assert r.lines == [] && frags[0..] == frags;
      case Closed(line, rest) =>
        var tail := Reassemble(rest);
        NothingLostOrDuplicated(rest);
        var k :| 0 <= k <= |rest| &&
          Texts(rest) == LineTexts(tail.lines) + Texts(rest[k..]) &&
          Literals(rest) == LineLiterals(tail.lines) + Literals(rest[k..]) &&
          (tail.failure.None? ==> k == |rest|);
        LineThenRest(frags, line, rest, k);
    }
  }

  /** The step of `NothingLostOrDuplicated` over a closed first line: what
      holds of the rest from `k` on holds of all the fragments from
      `|frags| - |rest| + k` on. */
  lemma LineThenRest(frags: seq<Fragment>, line: ResponseLine, rest: seq<Fragment>, k: nat)
    requires frags != [] && TakeGroup(frags, NoLine) == Closed(line, rest)
    requires k <= |rest|
    requires Texts(rest) == LineTexts(Reassemble(rest).lines) + Texts(rest[k..])
    requires Literals(rest) == LineLiterals(Reassemble(rest).lines) + Literals(rest[k..])
    ensures var used := |frags| - |rest|;
      used + k <= |frags| &&
      Texts(frags) == LineTexts(Reassemble(frags).lines) + Texts(frags[used + k..]) &&
      Literals(frags) == LineLiterals(Reassemble(frags).lines) + Literals(frags[used + k..])
  {
    var tail := Reassemble(rest).lines;
    ClosedGroupParts(frags, line, rest);
    LinesCons(line, tail);
    var used := |frags| - |rest|;
    assert rest[k..] == frags[used + k..];
    AppendAssoc(line.text, LineTexts(tail), Texts(rest[k..]));
    AppendAssoc(line.literals, LineLiterals(tail), Literals(rest[k..]));
  }

  /** A closed first group: the first line yielded, the bytes and literals
      it takes, and the fragments after it. */
  lemma ClosedGroupParts(frags: seq<Fragment>, line: ResponseLine, rest: seq<Fragment>)
    requires frags != [] && TakeGroup(frags, NoLine) == Closed(line, rest)
    ensures Reassemble(frags).lines == [line] + Reassemble(rest).lines
    ensures Texts(frags) == line.text + Texts(rest) && Literals(frags) == line.literals + Literals(rest)
    ensures rest == frags[|frags| - |rest|..]
  {
    GroupRestIsSuffix(frags, NoLine);
    ClosedGroupContent(frags, line, rest);
  }

  lemma ClosedGroupContent(frags: seq<Fragment>, line: ResponseLine, rest: seq<Fragment>)
    requires TakeGroup(frags, NoLine) == Closed(line, rest)
    ensures Texts(frags) == line.text + Texts(rest) && Literals(frags) == line.literals + Literals(rest)
  {
    GroupKeepsContent(frags, NoLine);
    var t, l := Texts(frags), Literals(frags);
    assert [] + t == t;
    assert [] + l == l;
  }

  lemma LinesCons(line: ResponseLine, tail: seq<ResponseLine>)
    ensures LineTexts([line] + tail) == line.text + LineTexts(tail)
    ensures LineLiterals([line] + tail) == line.literals + LineLiterals(tail)
  {
    assert ([line] + tail)[0] == line && ([line] + tail)[1..] == tail;
  }

  /** Every fragment carries some text. */
  predicate AllHaveText(frags: seq<Fragment>) {
    forall k :: 0 <= k < |frags| ==> frags[k].text != []
  }

  /** The fragments end at the end of a line (or there are none). */
  predicate EndsAtLineEnd(frags: seq<Fragment>) {
    frags == [] || ClosesLine(frags[|frags| - 1].text)
  }

  /** The generator ends normally exactly when every fragment has text and
      the last fragment ends in `)`; it raises StopIteration exactly when
      every fragment has text but the last one does not end in `)`. */
  lemma {:induction false} FailureExactly(frags: seq<Fragment>)
    ensures Reassemble(frags).failure.None? <==> AllHaveText(frags) && EndsAtLineEnd(frags)
    ensures Reassemble(frags).failure == Some(Truncated) <==> AllHaveText(frags) && !EndsAtLineEnd(frags)
    decreases |frags|
  {
    if frags != [] {
      GroupShape(frags, NoLine);
      match TakeGroup(frags, NoLine)
      case Broken(e) =>
        assert Reassemble(frags).failure == Some(e);
        if e == EmptyFragment {
          var k :| 0 <= k < |frags| && frags[k].text == [];
          assert !AllHaveText(frags);
        } else {
          assert !ClosesLine(frags[|frags| - 1].text);
        }
      case Closed(line, rest) =>
        GroupRestIsSuffix(frags, NoLine);
        FailureExactly(rest);
        assert Reassemble(frags).failure == Reassemble(rest).failure;
        SuffixAfterLine(frags, |frags| - |rest|);
    }
  }

  /** Dropping a first line that ends in `)` and has text in every
      fragment changes neither AllHaveText nor EndsAtLineEnd. */
  lemma SuffixAfterLine(frags: seq<Fragment>, used: nat)
    requires 0 < used <= |frags|
    requires forall k :: 0 <= k < used ==> frags[k].text != []
    requires ClosesLine(frags[used - 1].text)
    ensures AllHaveText(frags) <==> AllHaveText(frags[used..])
    ensures EndsAtLineEnd(frags) <==> EndsAtLineEnd(frags[used..])
  {
    var rest := frags[used..];
    if AllHaveText(rest) {
      forall k | 0 <= k < |frags|
        ensures frags[k].text != []
      {
        if k >= used {
          assert frags[k] == rest[k - used];
        }
      }
    }
    if rest != [] {
      assert rest[|rest| - 1] == frags[|frags| - 1];
    }
  }

  /** Where a group stops: at the first fragment that has no text or ends in `)`. */
  lemma {:induction false} GroupShape(frags: seq<Fragment>, acc: ResponseLine)
    ensures var g := TakeGroup(frags, acc);
      g.Closed? ==>
        (forall k :: 0 <= k < |frags| - |g.rest| ==> frags[k].text != []) &&
        ClosesLine(frags[|frags| - |g.rest| - 1].text) &&
        (forall k :: 0 <= k < |frags| - |g.rest| - 1 ==> !ClosesLine(frags[k].text))
    ensures TakeGroup(frags, acc) == Broken(EmptyFragment) ==> exists k :: 0 <= k < |frags| && frags[k].text == []
    ensures TakeGroup(frags, acc) == Broken(Truncated) ==>
      (forall k :: 0 <= k < |frags| ==> frags[k].text != [] && !ClosesLine(frags[k].text))
    decreases |frags|
  {
    if frags != [] && frags[0].text != [] && !ClosesLine(frags[0].text) {
      GroupShape(frags[1..], Absorb(acc, frags[0]));
      var g := TakeGroup(frags, acc);
      if g == Broken(EmptyFragment) {
        var k :| 0 <= k < |frags[1..]| && frags[1..][k].text == [];
        assert frags[k + 1].text == [];
      }
    }
  }

  /** `RFC822\s+\{(\d+)\}` matched at position `p` of `s`: the announced size. */
  function SizeAnnouncedAt(s: Bytes, p: nat): Option<nat> {
    if !OccursAt(s, Ascii("RFC822"), p) then None
    else
      var b := p + 6 + Span(s, p + 6, IsAsciiSpace);
      if b == p + 6 || b >= |s| || s[b] != OpenBrace then None
      else
        var e := b + 1 + Span(s, b + 1, IsAsciiDigit);
        if e == b + 1 || e >= |s| || s[e] != CloseBrace then None
        else Some(DecimalValue(s[b + 1..e]))
  }

  /** The number of bytes from `i` on that satisfy `p`. */
  function Span(s: Bytes, i: nat, p: byte -> bool): (n: nat)
    ensures n == 0 || i + n <= |s|
    ensures forall j :: i <= j < i + n ==> p(s[j])
    ensures i + n < |s| ==> !p(s[i + n])
    decreases |s| - i
  {
    if i < |s| && p(s[i]) then 1 + Span(s, i + 1, p) else 0
  }

  /** `re.search(rb'RFC822\s+\{(\d+)\}', s)` from position `from` on:
      the size announced by the leftmost match. */
  function Rfc822SizeFrom(s: Bytes, from: nat): (r: Option<nat>)
    ensures r.Some? ==> exists p :: from <= p <= |s| && SizeAnnouncedAt(s, p) == r &&
                                (forall q :: from <= q < p ==> SizeAnnouncedAt(s, q).None?)
    ensures r.None? ==> forall p :: from <= p ==> SizeAnnouncedAt(s, p).None?
    decreases |s| - from
  {
    if from > |s| then None
    else if SizeAnnouncedAt(s, from).Some? then SizeAnnouncedAt(s, from)
    else Rfc822SizeFrom(s, from + 1)
  }

  function Rfc822Size(s: Bytes): Option<nat> {
    Rfc822SizeFrom(s, 0)
  }

  /** The first literal of exactly `n` bytes. */
  function FirstOfLength(literals: seq<Bytes>, n: nat): (r: Option<Bytes>)
    ensures r.Some? ==> |r.value| == n && r.value in literals
    ensures r.None? <==> forall k :: 0 <= k < |literals| ==> |literals[k]| != n
    decreases |literals|
  {
    if literals == [] then None
    else if |literals[0]| == n then Some(literals[0])
    else FirstOfLength(literals[1..], n)
  }

  /** The literal found is the first one of that length: every literal
      before it has another length. */
  lemma {:induction false} FirstOfLengthIsFirst(literals: seq<Bytes>, n: nat)
    ensures FirstOfLength(literals, n).Some? ==>
      exists k :: 0 <= k < |literals| && literals[k] == FirstOfLength(literals, n).value &&
                  (forall j :: 0 <= j < k ==> |literals[j]| != n)
    decreases |literals|
  {
    if literals != [] && |literals[0]| != n && FirstOfLength(literals, n).Some? {
      FirstOfLengthIsFirst(literals[1..], n);
      var k :| 0 <= k < |literals[1..]| && literals[1..][k] == FirstOfLength(literals, n).value &&
               (forall j :: 0 <= j < k ==> |literals[1..][j]| != n);
      assert literals[k + 1] == literals[1..][k];
      assert forall j :: 1 <= j < k + 1 ==> literals[j] == literals[1..][j - 1];
    }
  }

  /** The message body `fetch_message_rfc822` takes from a line, as the code
      is written: when some literal has the announced size, the line's FIRST
      literal, whatever its size. */
  function MessageLiteralAsWritten(line: ResponseLine): Option<Bytes> {
    match Rfc822Size(line.text)
    case None => None
    case Some(n) =>
      if FirstOfLength(line.literals, n).Some? then Some(line.literals[0]) else None
  }

  /** The message body of a line: the first literal whose length is the
      size the line announces (the literal the size check found). */
  function MessageLiteral(line: ResponseLine): Option<Bytes> {
    match Rfc822Size(line.text)
    case None => None
    case Some(n) => FirstOfLength(line.literals, n)
  }

  /** As written, a line announcing `{n}` whose literals are `[a, b]` with
      only `b` of length `n` yields `a`, a body of the wrong size. */
  lemma AsWrittenTakesWrongLiteral(line: ResponseLine, a: Bytes, b: Bytes, n: nat)
    requires Rfc822Size(line.text) == Some(n)
    requires line.literals == [a, b] && |a| != n && |b| == n
    ensures MessageLiteralAsWritten(line) == Some(a) && |a| != n
    ensures MessageLiteral(line) == Some(b)
  {
    assert line.literals[1..] == [b];
    assert FirstOfLength([b], n) == Some(b);
    assert FirstOfLength(line.literals, n) == Some(b);
  }

  /** The located body always has exactly the announced size, and one is
      located whenever some literal has that size. */
  lemma MessageLiteralHasAnnouncedSize(line: ResponseLine)
    ensures MessageLiteral(line).Some? ==>
      Rfc822Size(line.text) == Some(|MessageLiteral(line).value|) &&
      MessageLiteral(line).value in line.literals
    ensures MessageLiteral(line).None? <==>
      Rfc822Size(line.text).None? ||
      forall k :: 0 <= k < |line.literals| ==> |line.literals[k]| != Rfc822Size(line.text).value
  {
  }

  /** With a single literal, the line of a normal `RFC822` FETCH response,
      the code as written and the corrected locator agree. */
  lemma AsWrittenAgreesOnOneLiteral(line: ResponseLine)
    requires |line.literals| == 1
    ensures MessageLiteralAsWritten(line) == MessageLiteral(line)
  {
  }

  /** A line that begins with a well-formed announcement of `n` is
      recognised as announcing `n`. */
  lemma {:induction false} AnnouncementRecognised(n: nat, rest: Bytes)
    ensures Rfc822Size(Ascii("RFC822 {") + DecimalDigits(n) + [CloseBrace] + rest) == Some(n)
  {
    var d := DecimalDigits(n);
    AnnouncementSpans(d, rest);
    DecimalRoundTrip(n);
  }

  /** How the pattern's parts line up on `RFC822 {d}` followed by `rest`. */
  lemma AnnouncementSpans(d: Bytes, rest: Bytes)
    requires d != [] && forall j :: 0 <= j < |d| ==> IsAsciiDigit(d[j])
    ensures var s := Ascii("RFC822 {") + d + [CloseBrace] + rest;
      OccursAt(s, Ascii("RFC822"), 0) && s[6] == 0x20 && s[7] == OpenBrace &&
      Span(s, 6, IsAsciiSpace) == 1 && Span(s, 8, IsAsciiDigit) == |d| &&
      s[8 + |d|] == CloseBrace && s[8..8 + |d|] == d
  {
    var s := Ascii("RFC822 {") + d + [CloseBrace] + rest;
    assert s[..6] == Ascii("RFC822");
    assert s[6] == 0x20 && s[7] == OpenBrace;
    assert Span(s, 6, IsAsciiSpace) == 1;
    assert s[8..8 + |d|] == d;
    DigitsSpan(s, 8, d);
  }

  lemma {:induction false} DigitsSpan(s: Bytes, i: nat, d: Bytes)
    requires i + |d| < |s| && s[i..i + |d|] == d && !IsAsciiDigit(s[i + |d|])
    requires forall j :: 0 <= j < |d| ==> IsAsciiDigit(d[j])
    ensures Span(s, i, IsAsciiDigit) == |d|
    decreases |d|
  {
    if d != [] {
      assert s[i] == d[0];
      DigitsSpan(s, i + 1, d[1..]);
    }
  }

  datatype FetchReply = FetchReply(ok: bool, fragments: seq<Fragment>)

  datatype LiteralOutcome =
    | Located(message: Bytes)                  // a PreferenceEmail is built from these bytes
    | NotLocated                               // only warnings; the function returns None
    | CommandFailed                            // `fetch_from_imap` raises: status is not OK
    | Incomplete(error: ReassemblyError)       // the reassembler raises before a body was found

  /** The loop over the lines of a UID FETCH reply in `fetch_message_rfc822`:
      the first line with a located body ends it. */
  function LocateInLines(lines: seq<ResponseLine>): Option<Bytes>
    decreases |lines|
  {
    if lines == [] then None
    else if MessageLiteral(lines[0]).Some? then MessageLiteral(lines[0])
    else LocateInLines(lines[1..])
  }

  /** A located body is the body of some line. */
  lemma {:induction false} LocatedInSomeLine(lines: seq<ResponseLine>)
    ensures LocateInLines(lines).Some? ==> exists k :: 0 <= k < |lines| && MessageLiteral(lines[k]) == LocateInLines(lines)
    decreases |lines|
  {
    if lines != [] && MessageLiteral(lines[0]).None? && LocateInLines(lines[1..]).Some? {
      var rest := lines[1..];
      LocatedInSomeLine(rest);
      var j :| 0 <= j < |rest| && MessageLiteral(rest[j]) == LocateInLines(rest);
      assert rest[j] == lines[j + 1];
    }
  }

  /** Nothing is located exactly when no line carries a body. */
  lemma {:induction false} NothingLocated(lines: seq<ResponseLine>)
    ensures LocateInLines(lines).None? <==> forall k :: 0 <= k < |lines| ==> MessageLiteral(lines[k]).None?
    decreases |lines|
  {
    if lines != [] {
      NothingLocated(lines[1..]);
      if MessageLiteral(lines[0]).None? {
        assert forall k :: 1 <= k < |lines| ==> lines[k] == lines[1..][k - 1];
      }
    }
  }

  /** `fetch_message_rfc822` on one reply. Lines are consumed lazily, so a
      reassembly error after the located line is never raised. */
  function FetchMessageLiteral(reply: FetchReply): LiteralOutcome {
    if !reply.ok then CommandFailed
    else
      var r := Reassemble(reply.fragments);
      match LocateInLines(r.lines)
      case Some(m) => Located(m)
      case None => if r.failure.Some? then Incomplete(r.failure.value) else NotLocated
  }

  /** A located body is a literal of the reply with exactly the size its
      line announces. */
  lemma LocatedHasAnnouncedSize(reply: FetchReply)
    ensures FetchMessageLiteral(reply).Located? ==>
      exists line :: line in Reassemble(reply.fragments).lines &&
        FetchMessageLiteral(reply).message in line.literals &&
        Rfc822Size(line.text) == Some(|FetchMessageLiteral(reply).message|)
  {
    if FetchMessageLiteral(reply).Located? {
      var lines := Reassemble(reply.fragments).lines;
      LocatedInSomeLine(lines);
      var k :| 0 <= k < |lines| && MessageLiteral(lines[k]) == LocateInLines(lines);
      MessageLiteralHasAnnouncedSize(lines[k]);
      assert lines[k] in lines;
    }
  }
}
