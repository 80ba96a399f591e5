/** The system report's JRE and platform facts: the Java version read
    from the output of `java -version`, whether that JRE is IBM's, and
    the machine and address tests. The platform and socket lookups are
    parameters. */
module SystemInfo {
  import opened Common

  /** What the version pattern `^java version "(.*)"$` needs before the
      captured text. */
  const VersionPrefix: string := "java version \""

  /** The text the version pattern captures from a line after `strip()`:
      the line starts with the prefix and ends with a quote, and the text
      between contains no line feed (`.` does not match one). */
  function VersionIn(line: string): (r: Option<string>)
    ensures r.Some? ==> StripSpace(line) == VersionPrefix + r.value + "\""
    ensures r.Some? ==> forall i :: 0 <= i < |r.value| ==> r.value[i] != '\n'
  {
    var s := StripSpace(line);
    if |s| >= |VersionPrefix| + 1 && StartsWith(s, VersionPrefix) && s[|s| - 1] == '"' then
      var v := s[|VersionPrefix|..|s| - 1];
      assert s == VersionPrefix + v + "\"";
      if forall i :: 0 <= i < |v| ==> v[i] != '\n' then Some(v) else None
    else None
  }

  /** The pattern's match, both ways: `VersionIn` gives `v` exactly when
      the stripped line is the prefix, `v` and a closing quote, with no
      line feed in `v`. */
  lemma VersionInMatchesPattern(line: string, v: string)
    ensures VersionIn(line) == Some(v) <==>
              StripSpace(line) == VersionPrefix + v + "\"" && forall i :: 0 <= i < |v| ==> v[i] != '\n'
  {
    var s := StripSpace(line);
    if s == VersionPrefix + v + "\"" {
      assert StartsWith(s, VersionPrefix);
      assert s[|VersionPrefix|..|s| - 1] == v;
    }
  }

  /** What `match` gives for the last line it gives something for. */
  function LastMatch(lines: seq<string>, match_: string -> Option<string>): Option<string> {
    if lines == [] then None
    else
      var v := match_(lines[|lines| - 1]);
      if v.Some? then v else LastMatch(lines[..|lines| - 1], match_)
  }

  /** The version of the last line that matches, if any. */
  function LastVersion(lines: seq<string>): Option<string> {
    LastMatch(lines, VersionIn)
  }

  /** A later matching line overrides an earlier one: the result is that
      of a matching line after which no line matches, and there is none
      exactly when no line matches. */
  lemma LastMatchIsLast(lines: seq<string>, match_: string -> Option<string>)
    ensures LastMatch(lines, match_).None? <==> forall i :: 0 <= i < |lines| ==> match_(lines[i]).None?
    ensures LastMatch(lines, match_).Some? ==>
              exists i :: 0 <= i < |lines| && match_(lines[i]) == LastMatch(lines, match_) &&
                          forall j :: i < j < |lines| ==> match_(lines[j]).None?
  {
    LastMatchNone(lines, match_);
    if LastMatch(lines, match_).Some? {
      var i := LastMatchAt(lines, match_);
    }
  }

  lemma {:induction false} LastMatchNone(lines: seq<string>, match_: string -> Option<string>)
    ensures LastMatch(lines, match_).None? <==> forall i :: 0 <= i < |lines| ==> match_(lines[i]).None?
    decreases |lines|
  {
    if lines != [] {
      var p := lines[..|lines| - 1];
      LastMatchNone(p, match_);
      assert forall i :: 0 <= i < |p| ==> p[i] == lines[i];
    }
  }

  /** The line a found result comes from. */
  lemma {:induction false} LastMatchAt(lines: seq<string>, match_: string -> Option<string>) returns (i: nat)
    requires LastMatch(lines, match_).Some?
    ensures i < |lines| && match_(lines[i]) == LastMatch(lines, match_)
    ensures forall j :: i < j < |lines| ==> match_(lines[j]).None?
    decreases |lines|
  {
    var n := |lines| - 1;
    if match_(lines[n]).Some? {
      i := n;
    } else {
      var p := lines[..n];
      i := LastMatchAt(p, match_);
      assert p[i] == lines[i];
      assert forall j :: i < j < |p| ==> p[j] == lines[j];
    }
  }

  /** The version is read from the last line of the form
      `java version "X"`; there is none when no line has that form. */
  lemma LastVersionIsLastMatch(lines: seq<string>)
    ensures LastVersion(lines).None? <==> forall i :: 0 <= i < |lines| ==> VersionIn(lines[i]).None?
    ensures LastVersion(lines).Some? ==>
              exists i :: 0 <= i < |lines| && VersionIn(lines[i]) == LastVersion(lines) &&
                          forall j :: i < j < |lines| ==> VersionIn(lines[j]).None?
  {
    LastMatchIsLast(lines, VersionIn);
  }

  lemma LastVersionStep(data: seq<string>, i: nat)
    requires i < |data|
    ensures LastVersion(data[..i + 1]) == if VersionIn(data[i]).Some? then VersionIn(data[i]) else LastVersion(data[..i])
  {
    assert data[..i + 1][..i] == data[..i];
  }

  predicate IsVersionStrip(c: char) {
    c == '1' || c == '.'
  }

  /** `version` from `origin_version`: an origin starting with `1.` loses
      every leading `1` and `.` (`str.lstrip('1.')`), any other is kept. */
  function Normalize(origin: string): string {
    if StartsWith(origin, "1.") then TrimLeft(origin, IsVersionStrip) else origin
  }

  /** What `lstrip` does to a `1.` version: a run of `1` and `.` is
      removed from the front and nothing else, and the rest does not start
      with either. */
  lemma NormalizeDropsLegacyPrefix(origin: string)
    ensures !StartsWith(origin, "1.") ==> Normalize(origin) == origin
    ensures StartsWith(origin, "1.") ==>
              var r := Normalize(origin);
              |r| <= |origin| - 2 && origin == origin[..|origin| - |r|] + r &&
              All(origin[..|origin| - |r|], IsVersionStrip) && (r != [] ==> !IsVersionStrip(r[0]))
  {
    if StartsWith(origin, "1.") {
      TrimLeftRemovesPrefix(origin, IsVersionStrip);
      var r := Normalize(origin);
      assert origin[0] == '1' && origin[1] == '.';
    }
  }

  /** The two cases the quirk is known for: the usual legacy version and
      one whose minor part is also made of `1`s and dots. */
  lemma NormalizeExamples()
    ensures Normalize("1.8.0_151") == "8.0_151"
    ensures Normalize("1.1.0") == "0"
  {
    assert "1.8.0_151"[1..] == ".8.0_151";
    assert ".8.0_151"[1..] == "8.0_151";
    assert "1.1.0"[1..] == ".1.0";
    assert ".1.0"[1..] == "1.0";
    assert "1.0"[1..] == ".0";
    assert ".0"[1..] == "0";
  }

  /** `\w`: ASCII letters, digits and the underscore. */
  predicate IsWordChar(c: char) {
    'a' <= c <= 'z' || 'A' <= c <= 'Z' || '0' <= c <= '9' || c == '_'
  }

  /** The first index at or after `k` that does not hold a word character. */
  function WordEnd(line: string, k: nat): (j: nat)
    requires k <= |line|
    ensures k <= j <= |line|
    ensures forall m :: k <= m < j ==> IsWordChar(line[m])
    ensures j < |line| ==> !IsWordChar(line[j])
    decreases |line| - k
  {
    if k == |line| || !IsWordChar(line[k]) then k else WordEnd(line, k + 1)
  }

  /** `IBM\s(\w+)\sVM` matches at `i`, with the word ending at `j`. */
  predicate IbmVmAt(line: string, i: nat, j: nat) {
    OccursAt(line, "IBM", i) && i + 4 < j < |line| &&
    IsSpaceChar(line[i + 3]) && (forall m :: i + 4 <= m < j ==> IsWordChar(line[m])) &&
    IsSpaceChar(line[j]) && OccursAt(line, "VM", j + 1)
  }

  /** The pattern matched at `i`, the word being the longest run of word
      characters there. */
  predicate IbmVmFrom(line: string, i: nat) {
    OccursAt(line, "IBM", i) && i + 4 <= |line| && IsSpaceChar(line[i + 3]) &&
    var j := WordEnd(line, i + 4);
    j > i + 4 && j < |line| && IsSpaceChar(line[j]) && OccursAt(line, "VM", j + 1)
  }

  /** The leftmost match at or after `from`, if any. */
  function SearchIbmVm(line: string, from: nat): (r: bool)
    ensures r <==> exists i :: from <= i < |line| && IbmVmFrom(line, i)
    decreases |line| - from
  {
    if from >= |line| then false
    else IbmVmFrom(line, from) || SearchIbmVm(line, from + 1)
  }

  /** The search finds a match exactly when the pattern occurs: a word
      character is never white space, so the word before `\sVM` is the
      whole run of word characters. */
  lemma SearchFindsPattern(line: string)
    ensures SearchIbmVm(line, 0) <==> exists i: nat, j: nat :: IbmVmAt(line, i, j)
  {
    if SearchIbmVm(line, 0) {
      var i :| 0 <= i < |line| && IbmVmFrom(line, i);
      assert IbmVmAt(line, i, WordEnd(line, i + 4));
    }
    if exists i: nat, j: nat :: IbmVmAt(line, i, j) {
      var i: nat, j: nat :| IbmVmAt(line, i, j);
      MatchEndsAtWordEnd(line, i, j);
    }
  }

  /** A match's word is the whole run of word characters after `IBM\s`,
      since the white space that follows it is not a word character. */
  lemma MatchEndsAtWordEnd(line: string, i: nat, j: nat)
    requires IbmVmAt(line, i, j)
    ensures WordEnd(line, i + 4) == j && IbmVmFrom(line, i)
  {
    var e := WordEnd(line, i + 4);
    assert !IsWordChar(line[j]);
    assert e <= j;
    assert e >= j;
  }

  /** `JREInfo`: the lines `java -version` printed and the version read
      from them; `None` stands for an attribute never assigned. */
  class JreInfo {
    var raw: seq<string>
    var originVersion: Option<string>
    var version: Option<string>

    constructor (data: seq<string>)
      ensures raw == data
      ensures originVersion == LastVersion(data)
      ensures version == (if originVersion.Some? then Some(Normalize(originVersion.value)) else None)
    {
      raw := [];
      originVersion := None;
      version := None;
      new;
      for i := 0 to |data|
        invariant raw == data[..i]
        invariant originVersion == LastVersion(data[..i])
        invariant version == (if originVersion.Some? then Some(Normalize(originVersion.value)) else None)
      {
        LastVersionStep(data, i);
        ReadLine(data[i]);
      }
      assert data[..|data|] == data;
    }

    /** One pass of the constructor's loop: the line kept, and the version
        taken from it when it matches. */
    method ReadLine(line: string)
      modifies this
      ensures raw == old(raw) + [line]
      ensures VersionIn(line).None? ==> originVersion == old(originVersion) && version == old(version)
      ensures VersionIn(line).Some? ==>
                originVersion == VersionIn(line) && version == Some(Normalize(VersionIn(line).value))
    {
      raw := raw + [line];
      var found := VersionIn(line);
      if found.Some? {
        originVersion := found;
        if StartsWith(found.value, "1.") {
          version := Some(TrimLeft(found.value, IsVersionStrip));
        } else {
          version := found;
        }
      }
    }

    /** `is_ibm_jre`: some printed line mentions an IBM VM. */
    method IsIbmJre() returns (r: bool)
      ensures r <==> exists k :: 0 <= k < |raw| && SearchIbmVm(raw[k], 0)
    {
      for k := 0 to |raw|
        invariant forall m :: 0 <= m < k ==> !SearchIbmVm(raw[m], 0)
      {
        if SearchIbmVm(raw[k], 0) {
          return true;
        }
      }
      r := false;
    }

    /** `str`: the printed lines joined by line feeds. */
    function Str(): string
      reads this
    {
      Join(raw, "\n")
    }

    /** The text `Str` gives splits back into the printed lines (each line
        of a command's output is free of line feeds). */
    lemma StrSplitsBack()
      requires |raw| > 0
      requires forall k, j :: 0 <= k < |raw| && 0 <= j < |raw[k]| ==> raw[k][j] != '\n'
      ensures Split(Str(), '\n') == raw
    {
      SplitJoin(raw, '\n');
    }
  }

  /** `System.is_32bit`: one of the three x86 machine names. */
  function Is32Bit(machine: string): (r: bool)
    ensures r ==> |machine| == 4 && machine[0] == 'i' && machine[2..] == "86"
  {
    machine in ["i386", "i586", "i686"]
  }

  /** A machine name is 32-bit exactly when it reads `i?86` with a 3, 5
      or 6 in the second place. */
  lemma Is32BitShape(machine: string)
    ensures Is32Bit(machine) <==> |machine| == 4 && machine[0] == 'i' && machine[1] in "356" && machine[2..] == "86"
  {
    if |machine| == 4 && machine[0] == 'i' && machine[1] in "356" && machine[2..] == "86" {
      assert machine == [machine[0], machine[1]] + machine[2..];
      if machine[1] == '3' {
        assert machine == "i386";
      } else if machine[1] == '5' {
        assert machine == "i586";
      } else {
        assert machine == "i686";
      }
    }
  }

  /** `System.is_64bit`: the x86-64 machine name, never a 32-bit one. */
  function Is64Bit(machine: string): (r: bool)
    ensures r <==> machine == "x86_64"
    ensures r ==> !Is32Bit(machine)
  {
    machine == "x86_64"
  }

  /** The machine names `uname` reports for 486 and ARM hosts are neither
      32-bit nor 64-bit to the script. */
  lemma OtherMachinesUnclassified()
    ensures !Is32Bit("i486") && !Is64Bit("i486")
    ensures !Is32Bit("aarch64") && !Is64Bit("aarch64")
  {
    assert "i486"[1] == '4';
  }

  /** `ip_addresses`: the addresses the host lookup gives, or the loopback
      address when it fails (`None`). */
  function IpAddresses(lookup: Option<seq<string>>): (r: seq<string>)
    ensures lookup.None? ==> r == ["127.0.0.1"]
    ensures lookup.Some? ==> r == lookup.value
  {
    if lookup.None? then ["127.0.0.1"] else lookup.value
  }

  /** `assigned_to_local_ip`: whether the first address is a loopback
      one; `None` when the lookup gives no address and indexing raises. */
  function AssignedToLocalIp(lookup: Option<seq<string>>): (r: Option<bool>)
    ensures r.None? <==> lookup == Some([])
    ensures lookup.None? ==> r == Some(true)
    ensures r.Some? ==> (r.value <==> StartsWith(IpAddresses(lookup)[0], "127."))
  {
    var addresses := IpAddresses(lookup);
    if addresses == [] then None
    else Some(StartsWith(addresses[0], "127."))
  }
}
