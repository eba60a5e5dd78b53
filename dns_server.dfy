/**
 * The DNS server of the content delivery network (lab7/dnsServer/dns_server.py):
 * the record table read from a text file, the label matcher with its `*`
 * wildcard, the first-match answer and the reply codes. Decoding and encoding
 * DNS messages, and the choice among several addresses (by client location,
 * or at random), are outside the model: the request's validity and name are
 * parameters and the choice is an index `pick`.
 */
module DnsServer {
  import opened Wrappers

  // ---------------------------------------------------------------------
  // `str.split('.')`
  // ---------------------------------------------------------------------

  /** The parts joined back with `sep` between them. */
  function JoinWith(parts: seq<string>, sep: char): string
    requires parts != []
  {
    if |parts| == 1 then parts[0] else parts[0] + [sep] + JoinWith(parts[1..], sep)
  }

  /**
   * `s.split(sep)`: the maximal runs between separators, empty ones
   * included, so there is always one more part than separators; joining the
   * parts back gives `s`.
   */
  function SplitOn(s: string, sep: char): (parts: seq<string>)
    ensures parts != []
    ensures JoinWith(parts, sep) == s
    ensures forall i :: 0 <= i < |parts| ==> sep !in parts[i]
  {
    if s == [] then [[]]
    else
      var rest := SplitOn(s[1..], sep);
      if s[0] == sep then
        assert [[]] + rest == [[]] + rest && ([[]] + rest)[1..] == rest;
        [[]] + rest
      else
        var parts := [[s[0]] + rest[0]] + rest[1..];
        assert |parts| == 1 ==> rest == [rest[0]];
        assert |parts| > 1 ==> parts[1..] == rest[1..];
        parts
  }

  // ---------------------------------------------------------------------
  // `str.split()` and the record lines
  // ---------------------------------------------------------------------

  /**
   * The characters `str.split()` separates on (those `str.isspace()` accepts):
   * the ASCII controls 9 to 13 and 28 to 31, space, NEL, no-break space, and
   * the Unicode space separators and line and paragraph separators.
   */
  predicate IsSpace(c: char) {
    var n := c as int;
    || 9 <= n <= 13 || 28 <= n <= 32 || n == 0x85 || n == 0xA0 || n == 0x1680
    || 0x2000 <= n <= 0x200A || n == 0x2028 || n == 0x2029 || n == 0x202F || n == 0x205F || n == 0x3000
  }

  /** The characters of `s` that are not whitespace, in order. */
  function NonSpace(s: string): string {
    if s == [] then [] else (if IsSpace(s[0]) then [] else [s[0]]) + NonSpace(s[1..])
  }

  function Flatten(parts: seq<string>): string {
    if parts == [] then [] else parts[0] + Flatten(parts[1..])
  }

  /**
   * `line.split()`: the maximal runs of non-whitespace characters. Every
   * field is non-empty and free of whitespace, and the fields together are
   * exactly the non-whitespace characters of the line, in order.
   */
  function Fields(s: string): (fields: seq<string>)
    ensures forall i :: 0 <= i < |fields| ==> fields[i] != [] && SpaceFree(fields[i])
    ensures Flatten(fields) == NonSpace(s)
    ensures s != [] && !IsSpace(s[0]) ==> fields != [] && fields[0][0] == s[0]
  {
    if s == [] then []
    else if IsSpace(s[0]) then Fields(s[1..])
    else
      var rest := Fields(s[1..]);
      if |s| > 1 && !IsSpace(s[1]) then
        var fields := [[s[0]] + rest[0]] + rest[1..];
        assert fields[1..] == rest[1..];
        assert Flatten(rest) == rest[0] + Flatten(rest[1..]);
        fields
      else
        [[s[0]]] + rest
  }

  /** A no-break space separates fields, as it does for `str.split()`. */
  lemma NoBreakSpaceSeparates()
    ensures Fields("a\U{00A0}b") == ["a", "b"]
  {
    assert "a\U{00A0}b"[1..] == "\U{00A0}b" && "\U{00A0}b"[1..] == "b" && "b"[1..] == [];
  }

  /** The fields with the gaps around them: `gaps[0] + fields[0] + gaps[1] + ... + fields[n - 1] + gaps[n]`. */
  function Interleave(gaps: seq<string>, fields: seq<string>): string
    requires |gaps| == |fields| + 1
  {
    if fields == [] then gaps[0] else gaps[0] + fields[0] + Interleave(gaps[1..], fields[1..])
  }

  /** A field: no whitespace at all. */
  predicate SpaceFree(field: string) {
    forall c :: c in field ==> !IsSpace(c)
  }

  /** A gap: whitespace only. */
  predicate AllSpace(g: string) {
    forall c :: c in g ==> IsSpace(c)
  }

  /** Gaps of whitespace, one more than the fields, and non-empty between two fields. */
  predicate Gaps(gaps: seq<string>, fields: seq<string>) {
    && |gaps| == |fields| + 1
    && (forall i :: 0 <= i < |gaps| ==> AllSpace(gaps[i]))
    && (forall i :: 0 < i < |gaps| - 1 ==> gaps[i] != [])
  }

  /** A leading whitespace character joins the first gap. */
  lemma GapsLeadingSpace(c: char, tail: seq<string>, rest: seq<string>)
    requires IsSpace(c) && Gaps(tail, rest)
    ensures Gaps([[c] + tail[0]] + tail[1..], rest)
    ensures Interleave([[c] + tail[0]] + tail[1..], rest) == [c] + Interleave(tail, rest)
  {
    var gaps := [[c] + tail[0]] + tail[1..];
    assert gaps[1..] == tail[1..];
    assert forall i :: 0 < i < |gaps| ==> gaps[i] == tail[i];
  }

  lemma InterleaveCons(gaps: seq<string>, fields: seq<string>)
    requires |gaps| == |fields| + 1 && fields != []
    ensures Interleave(gaps, fields) == gaps[0] + fields[0] + Interleave(gaps[1..], fields[1..])
  {
  }

  lemma ReplaceHead<T>(h: T, s: seq<T>)
    requires s != []
    ensures ([h] + s[1..])[0] == h && ([h] + s[1..])[1..] == s[1..]
  {
  }

  lemma PrependAfterEmpty(c: char, g: string, x: string, after: string)
    requires g == []
    ensures g + ([c] + x) + after == [c] + (g + x + after)
  {
    assert g + ([c] + x) == [c] + x;
    assert g + x == x;
  }

  /** A non-whitespace character before a field with no gap extends that field. */
  lemma GapsExtendField(c: char, tail: seq<string>, rest: seq<string>)
    requires |tail| == |rest| + 1 && rest != [] && tail[0] == []
    ensures Interleave(tail, [[c] + rest[0]] + rest[1..]) == [c] + Interleave(tail, rest)
  {
    var fields := [[c] + rest[0]] + rest[1..];
    ReplaceHead([c] + rest[0], rest);
    InterleaveCons(tail, fields);
    InterleaveCons(tail, rest);
    PrependAfterEmpty(c, tail[0], rest[0], Interleave(tail[1..], rest[1..]));
  }

  /** A non-whitespace character before a gap (or the end) is a field of its own. */
  lemma GapsNewField(c: char, tail: seq<string>, rest: seq<string>)
    requires Gaps(tail, rest) && (rest != [] ==> tail[0] != [])
    ensures Gaps([[]] + tail, [[c]] + rest)
    ensures Interleave([[]] + tail, [[c]] + rest) == [c] + Interleave(tail, rest)
  {
    var gaps := [[]] + tail;
    assert gaps[1..] == tail && ([[c]] + rest)[1..] == rest;
    assert forall i :: 0 < i < |gaps| ==> gaps[i] == tail[i - 1];
  }

  /** The first character of a line with a non-empty first gap is that gap's. */
  lemma InterleaveHead(gaps: seq<string>, fields: seq<string>)
    requires |gaps| == |fields| + 1 && Interleave(gaps, fields) != []
    ensures gaps[0] != [] ==> Interleave(gaps, fields)[0] == gaps[0][0]
    ensures gaps[0] == [] && fields != [] && fields[0] != [] ==> Interleave(gaps, fields)[0] == fields[0][0]
  {
  }

  /**
   * The fields are exactly the maximal runs of non-whitespace: the line is
   * its fields with whitespace-only gaps around them, and every gap between
   * two fields holds at least one whitespace character. Together with the
   * contract of `Fields` this fixes the split uniquely.
   */
  lemma {:induction false} FieldsAreMaximalRuns(s: string) returns (gaps: seq<string>)
    ensures Gaps(gaps, Fields(s))
    ensures s == Interleave(gaps, Fields(s))
  {
    if s == [] {
      gaps := [[]];
    } else {
      var tail := FieldsAreMaximalRuns(s[1..]);
      var rest := Fields(s[1..]);
      assert s == [s[0]] + s[1..];
      if IsSpace(s[0]) {
        GapsLeadingSpace(s[0], tail, rest);
        gaps := [[s[0]] + tail[0]] + tail[1..];
      } else if |s| > 1 && !IsSpace(s[1]) {
        InterleaveHead(tail, rest);
        assert s[1..][0] == s[1];
        assert tail[0] == [];
        GapsExtendField(s[0], tail, rest);
        gaps := tail;
      } else {
        if rest != [] {
          InterleaveHead(tail, rest);
          assert s[1..][0] == s[1];
        }
        GapsNewField(s[0], tail, rest);
        gaps := [[]] + tail;
      }
    }
  }

  /** A record's value: the single CNAME target, or the list of addresses. */
  datatype RecordValue = Target(name: string) | Addresses(list: seq<string>)

  /** `DNS_Record(domain, type, value)`. */
  datatype Record = Record(domain: string, rtype: string, value: RecordValue)

  /** Why a line cannot be read: it has fewer fields than its type needs, which is an IndexError. */
  datatype ParseError = MissingField(line: nat)

  /**
   * One line of the record file: the first field is the domain, the second the
   * type; a CNAME's value is the third field alone, any other type's value is
   * every field from the third on (possibly none).
   */
  function ParseLine(line: string, lineNo: nat): (r: Result<Record, ParseError>)
    ensures var f := Fields(line);
      && (r.Ok? <==> |f| >= 3 || (|f| == 2 && f[1] != "CNAME"))
      && (r.Ok? ==> r.value.domain == f[0] && r.value.rtype == f[1])
      && (r.Ok? && f[1] == "CNAME" ==> r.value.value == Target(f[2]))
      && (r.Ok? && f[1] != "CNAME" ==> r.value.value == Addresses(f[2..]))
      && (r.Err? ==> r.error == MissingField(lineNo))
  {
    var f := Fields(line);
    if |f| < 2 then Err(MissingField(lineNo))
    else if f[1] == "CNAME" then
      if |f| < 3 then Err(MissingField(lineNo)) else Ok(Record(f[0], f[1], Target(f[2])))
    else Ok(Record(f[0], f[1], Addresses(f[2..])))
  }

  /**
   * Reading lines `from..` of the file: the records appended before the first
   * line that cannot be read, and that line's error if there is one. There
   * is no error exactly when every line was read.
   */
  function ParseFrom(lines: seq<string>, from: nat): (r: (seq<Record>, Option<ParseError>))
    requires from <= |lines|
    ensures |r.0| <= |lines| - from
    ensures r.1.None? <==> |r.0| == |lines| - from
    decreases |lines| - from
  {
    if from == |lines| then ([], None)
    else
      match ParseLine(lines[from], from)
      case Err(e) => ([], Some(e))
      case Ok(rec) =>
        var rest := ParseFrom(lines, from + 1);
        ([rec] + rest.0, rest.1)
  }

  /**
   * The records `ParseFrom` collects are the lines' own records, in file
   * order, and the error it stops with is the error of the line right after
   * them.
   */
  lemma {:induction false} ParseFromReadsLines(lines: seq<string>, from: nat)
    requires from <= |lines|
    ensures var r := ParseFrom(lines, from);
      && (forall i :: 0 <= i < |r.0| ==> ParseLine(lines[from + i], from + i) == Ok(r.0[i]))
      && (r.1.Some? ==> ParseLine(lines[from + |r.0|], from + |r.0|) == Err(r.1.value))
    decreases |lines| - from
  {
    if from < |lines| {
      var line := ParseLine(lines[from], from);
      if line.Err? {
        ParseFromStops(lines, from, line.error);
      } else {
        var rest := ParseFrom(lines, from + 1);
        ParseFromReadsLines(lines, from + 1);
        ParseFromReads(lines, from, line.value);
        ParseFromRecordsNext(lines, from, line.value, rest.0);
        ParseFromErrorNext(lines, from, line.value, rest);
        assert ParseFrom(lines, from) == ([line.value] + rest.0, rest.1);
      }
    }
  }

  /** The records step of `ParseFromReadsLines` past a line that reads. */
  lemma ParseFromRecordsNext(lines: seq<string>, from: nat, rec: Record, rest: seq<Record>)
    requires from + |rest| < |lines| && ParseLine(lines[from], from) == Ok(rec)
    requires forall i :: 0 <= i < |rest| ==> ParseLine(lines[from + 1 + i], from + 1 + i) == Ok(rest[i])
    ensures forall i :: 0 <= i < |[rec] + rest| ==> ParseLine(lines[from + i], from + i) == Ok(([rec] + rest)[i])
  {
    var read := [rec] + rest;
    forall i | 0 <= i < |read|
      ensures ParseLine(lines[from + i], from + i) == Ok(read[i])
    {
      if i > 0 {
        assert read[i] == rest[i - 1] && from + i == from + 1 + (i - 1);
      }
    }
  }

  /** The error step of `ParseFromReadsLines` past a line that reads. */
  lemma ParseFromErrorNext(lines: seq<string>, from: nat, rec: Record, rest: (seq<Record>, Option<ParseError>))
    requires from + |rest.0| < |lines| && (rest.1.Some? ==> from + 1 + |rest.0| < |lines|)
    requires rest.1.Some? ==> ParseLine(lines[from + 1 + |rest.0|], from + 1 + |rest.0|) == Err(rest.1.value)
    ensures rest.1.Some? ==> ParseLine(lines[from + |[rec] + rest.0|], from + |[rec] + rest.0|) == Err(rest.1.value)
  {
    assert from + |[rec] + rest.0| == from + 1 + |rest.0|;
  }

  /** Reading on past a line that reads: its record joins those read so far. */
  lemma ParseFromOk(lines: seq<string>, i: nat, done: seq<Record>, rec: Record)
    requires i < |lines| && ParseLine(lines[i], i) == Ok(rec)
    requires ParseFrom(lines, 0) == (done + ParseFrom(lines, i).0, ParseFrom(lines, i).1)
    ensures ParseFrom(lines, 0) == ((done + [rec]) + ParseFrom(lines, i + 1).0, ParseFrom(lines, i + 1).1)
  {
    var next := ParseFrom(lines, i + 1);
    ParseFromReads(lines, i, rec);
    assert done + ([rec] + next.0) == (done + [rec]) + next.0;
  }

  /** Stopping at a line that does not read: the records read so far and its error. */
  lemma ParseFromErr(lines: seq<string>, i: nat, done: seq<Record>, e: ParseError)
    requires i < |lines| && ParseLine(lines[i], i) == Err(e)
    requires ParseFrom(lines, 0) == (done + ParseFrom(lines, i).0, ParseFrom(lines, i).1)
    ensures ParseFrom(lines, 0) == (done, Some(e))
  {
    var here := ParseFrom(lines, i);
    ParseFromStops(lines, i, e);
    assert here.0 == [] && done + here.0 == done;
  }

  lemma ParseFromReads(lines: seq<string>, i: nat, rec: Record)
    requires i < |lines| && ParseLine(lines[i], i) == Ok(rec)
    ensures ParseFrom(lines, i) == ([rec] + ParseFrom(lines, i + 1).0, ParseFrom(lines, i + 1).1)
  {
  }

  lemma ParseFromStops(lines: seq<string>, i: nat, e: ParseError)
    requires i < |lines| && ParseLine(lines[i], i) == Err(e)
    ensures ParseFrom(lines, i) == ([], Some(e))
  {
  }

  // ---------------------------------------------------------------------
  // `match`
  // ---------------------------------------------------------------------

  /** Whether one `zip_longest` position passes: `y == '*' or x == y or (not x and not y)`; None is the fill value. */
  predicate LabelOk(x: Option<string>, y: Option<string>) {
    y == Some("*") || x == y || ((x.None? || x.value == "") && (y.None? || y.value == ""))
  }

  function At(labels: seq<string>, i: nat): Option<string> {
    if i < |labels| then Some(labels[i]) else None
  }

  function Max(a: nat, b: nat): nat {
    if a < b then b else a
  }

  /**
   * `all(...)` over `zip_longest(xs, ys)` from position `k` on; it holds
   * exactly when every position from `k` up to the longer list passes.
   */
  function LabelsFrom(xs: seq<string>, ys: seq<string>, k: nat): (r: bool)
    ensures r <==> forall i :: k <= i < Max(|xs|, |ys|) ==> LabelOk(At(xs, i), At(ys, i))
    decreases Max(|xs|, |ys|) - k
  {
    if k >= Max(|xs|, |ys|) then true
    else LabelOk(At(xs, k), At(ys, k)) && LabelsFrom(xs, ys, k + 1)
  }

  function LabelsMatch(xs: seq<string>, ys: seq<string>): bool {
    LabelsFrom(xs, ys, 0)
  }

  /** `match(name, domain)`: the record domain `domain` serves the requested `name`. */
  function Match(name: string, domain: string): bool {
    LabelsMatch(SplitOn(name, '.'), SplitOn(domain, '.'))
  }

  /** Every name matches itself. */
  lemma MatchReflexive(name: string)
    ensures Match(name, name)
  {
    var xs := SplitOn(name, '.');
    assert forall i :: 0 <= i < Max(|xs|, |xs|) ==> At(xs, i) == At(xs, i);
  }

  /**
   * Position by position: a `*` in the pattern accepts any label or none,
   * other labels must be equal, and an empty label and a missing one accept
   * each other. So a name with more labels than the pattern matches only
   * when the extra labels are empty, and `*` stands for exactly one label.
   */
  lemma MatchByLabels(name: string, domain: string)
    ensures var xs, ys := SplitOn(name, '.'), SplitOn(domain, '.');
      && (Match(name, domain) <==>
            forall i :: 0 <= i < Max(|xs|, |ys|) ==>
              (i < |ys| && ys[i] == "*") || (i < |xs| && i < |ys| && xs[i] == ys[i])
              || ((i >= |xs| || xs[i] == "") && (i >= |ys| || ys[i] == "")))
      && (Match(name, domain) && |xs| > |ys| ==> forall i :: |ys| <= i < |xs| ==> xs[i] == "")
  {
    var xs, ys := SplitOn(name, '.'), SplitOn(domain, '.');
    forall i | 0 <= i < Max(|xs|, |ys|)
      ensures LabelOk(At(xs, i), At(ys, i)) <==>
        (i < |ys| && ys[i] == "*") || (i < |xs| && i < |ys| && xs[i] == ys[i])
        || ((i >= |xs| || xs[i] == "") && (i >= |ys| || ys[i] == ""))
    {
    }
    if Match(name, domain) && |xs| > |ys| {
      forall i | |ys| <= i < |xs| ensures xs[i] == "" {
        assert LabelOk(At(xs, i), At(ys, i));
      }
    }
  }

  lemma {:induction false} SplitNoSep(s: string, sep: char)
    requires sep !in s
    ensures SplitOn(s, sep) == [s]
  {
    if s != [] {
      SplitNoSep(s[1..], sep);
    }
  }

  /** Splitting at the first separator: the label before it, then the split of the rest. */
  lemma {:induction false} SplitFirst(first: string, sep: char, rest: string)
    requires sep !in first
    ensures SplitOn(first + [sep] + rest, sep) == [first] + SplitOn(rest, sep)
  {
    if first != [] {
      assert (first + [sep] + rest)[1..] == first[1..] + [sep] + rest;
      SplitFirst(first[1..], sep, rest);
      assert [first[0]] + first[1..] == first;
    } else {
      assert ([sep] + rest)[1..] == rest;
    }
  }

  /**
   * `*.example.com` serves `www.example.com` but not `a.www.example.com`:
   * the wildcard covers exactly one label. (The names split into these
   * labels by `SplitFirst` and `SplitNoSep`.)
   */
  lemma WildcardCoversOneLabel()
    ensures LabelsMatch(["www", "example", "com"], ["*", "example", "com"])
    ensures !LabelsMatch(["a", "www", "example", "com"], ["*", "example", "com"])
  {
    var xs, ys := ["a", "www", "example", "com"], ["*", "example", "com"];
    assert !LabelOk(At(xs, 1), At(ys, 1));
  }

  /** A trailing dot makes an empty last label, which matches the missing one: `example.com.` is served by `example.com`. */
  lemma TrailingDotMatches()
    ensures LabelsMatch(["example", "com", ""], ["example", "com"])
  {
  }

  // ---------------------------------------------------------------------
  // `get_response` and `handle`
  // ---------------------------------------------------------------------

  /** The position of the first record whose domain serves `name`. */
  function FirstMatch(table: seq<Record>, name: string): (r: Option<nat>)
    ensures r.Some? ==> r.value < |table| && Match(name, table[r.value].domain)
    ensures r.Some? ==> forall j :: 0 <= j < r.value ==> !Match(name, table[j].domain)
    ensures r.None? <==> forall j :: 0 <= j < |table| ==> !Match(name, table[j].domain)
  {
    if table == [] then None
    else if Match(name, table[0].domain) then Some(0)
    else
      match FirstMatch(table[1..], name)
      case None =>
        assert forall j :: 1 <= j < |table| ==> table[j] == table[1..][j - 1];
        None
      case Some(k) =>
        assert forall j :: 1 <= j <= k + 1 ==> table[j] == table[1..][j - 1];
        Some(k + 1)
  }

  lemma FirstMatchIs(table: seq<Record>, name: string, i: nat)
    requires i <= |table|
    requires forall j :: 0 <= j < i ==> !Match(name, table[j].domain)
    requires i < |table| ==> Match(name, table[i].domain)
    ensures FirstMatch(table, name) == if i < |table| then Some(i) else None
  {
    var r := FirstMatch(table, name);
    if r.Some? {
      assert r.value >= i;
      assert i < |table| ==> r.value <= i;
    }
  }

  /** An answer: the record's type and the value sent back. */
  datatype Answer = Answer(rtype: string, value: string)

  /** A record with an empty address list: choosing from it raises, and the request goes unanswered. */
  datatype LookupError = EmptyAddressList

  /** The answer a record gives: a CNAME's target, or the address `pick` chooses. */
  function AnswerOf(rec: Record, pick: nat): (r: Result<Answer, LookupError>)
    ensures r.Ok? ==> r.value.rtype == rec.rtype
    ensures r.Ok? && rec.value.Target? ==> r.value.value == rec.value.name
    ensures r.Ok? && rec.value.Addresses? ==> r.value.value in rec.value.list
    ensures r.Err? <==> rec.value.Addresses? && rec.value.list == []
  {
    match rec.value
    case Target(t) => Ok(Answer(rec.rtype, t))
    case Addresses(list) => if list == [] then Err(EmptyAddressList) else Ok(Answer(rec.rtype, list[pick % |list|]))
  }

  /**
   * `get_response`: the table in order, stopping at the first record that
   * serves `name`; None when no record does. Later records are never consulted.
   */
  method GetResponse(table: seq<Record>, name: string, pick: nat) returns (r: Result<Option<Answer>, LookupError>)
    ensures FirstMatch(table, name).None? ==> r == Ok(None)
    ensures FirstMatch(table, name).Some? ==>
      var rec := table[FirstMatch(table, name).value];
      match AnswerOf(rec, pick)
      case Ok(a) => r == Ok(Some(a))
      case Err(e) => r == Err(e)
  {
    var i := 0;
    while i < |table|
      invariant i <= |table|
      invariant forall j :: 0 <= j < i ==> !Match(name, table[j].domain)
    {
      if Match(name, table[i].domain) {
        FirstMatchIs(table, name, i);
        var a := AnswerOf(table[i], pick);
        if a.Err? {
          return Err(a.error);
        }
        return Ok(Some(a.value));
      }
      i := i + 1;
    }
    FirstMatchIs(table, name, i);
    return Ok(None);
  }

  /** The answer a request receives: the records found, an error code, or nothing when `get_response` raised. */
  datatype Reply = Records(answer: Answer) | ErrorCode(rcode: nat) | NoReply

  /** The RCODE values of section 4.1.1 of RFC 1035 the server uses. */
  const FormErr: nat := 1
  const NXDomain: nat := 3

  /** `handle` for a request whose format check gave `valid` and whose name is `name`. */
  function HandleReply(table: seq<Record>, valid: bool, name: string, pick: nat): Reply {
    if !valid then ErrorCode(FormErr)
    else
      match FirstMatch(table, name)
      case None => ErrorCode(NXDomain)
      case Some(i) =>
        match AnswerOf(table[i], pick)
        case Ok(a) => Records(a)
        case Err(_) => NoReply
  }

  /**
   * A malformed request gets FormErr; a name no record serves gets NXDomain;
   * otherwise the reply carries the first serving record's type and its CNAME
   * target or one of its addresses, and it is withheld exactly when that
   * first serving record has an empty address list.
   */
  lemma HandleAnswers(table: seq<Record>, valid: bool, name: string, pick: nat)
    ensures var reply := HandleReply(table, valid, name, pick);
      && (!valid ==> reply == ErrorCode(FormErr))
      && (valid && (forall j :: 0 <= j < |table| ==> !Match(name, table[j].domain)) ==> reply == ErrorCode(NXDomain))
      && (reply.Records? ==> exists i ::
            && 0 <= i < |table| && Match(name, table[i].domain)
            && (forall j :: 0 <= j < i ==> !Match(name, table[j].domain))
            && reply.answer.rtype == table[i].rtype
            && (table[i].value.Target? ==> reply.answer.value == table[i].value.name)
            && (table[i].value.Addresses? ==> reply.answer.value in table[i].value.list))
      && (forall i ::
            (0 <= i < |table| && Match(name, table[i].domain) && valid
             && (forall j :: 0 <= j < i ==> !Match(name, table[j].domain))) ==>
            && (reply.NoReply? <==> table[i].value.Addresses? && table[i].value.list == [])
            && (reply.Records? <==> !(table[i].value.Addresses? && table[i].value.list == [])))
  {
    if valid {
      match FirstMatch(table, name)
      case None =>
      case Some(i) =>
    }
    forall i | 0 <= i < |table| && Match(name, table[i].domain) && valid
      && (forall j :: 0 <= j < i ==> !Match(name, table[j].domain))
      ensures var reply := HandleReply(table, valid, name, pick);
        && (reply.NoReply? <==> table[i].value.Addresses? && table[i].value.list == [])
        && (reply.Records? <==> !(table[i].value.Addresses? && table[i].value.list == []))
    {
      FirstMatchIs(table, name, i);
    }
  }

  /** The server of `DNSServer`: the record table `parse_dns_file` fills. */
  class Server {
    var table: seq<Record>

    constructor ()
      ensures table == []
    {
      table := [];
    }

    /**
     * `parse_dns_file` over the file's lines: each line's record is appended
     * in file order; the first unreadable line stops the reading with its error.
     */
    method ParseDnsFile(lines: seq<string>) returns (r: Option<ParseError>)
      modifies this
      ensures table == old(table) + ParseFrom(lines, 0).0 && r == ParseFrom(lines, 0).1
    {
      ghost var t0 := table;
      ghost var done: seq<Record> := [];
      var i := 0;
      assert done + ParseFrom(lines, 0).0 == ParseFrom(lines, 0).0;
      while i < |lines|
        invariant i <= |lines|
        invariant table == t0 + done
        invariant ParseFrom(lines, 0) == (done + ParseFrom(lines, i).0, ParseFrom(lines, i).1)
      {
        var rec := ParseLine(lines[i], i);
        if rec.Err? {
          ParseFromErr(lines, i, done, rec.error);
          return Some(rec.error);
        }
        ParseFromOk(lines, i, done, rec.value);
        table := table + [rec.value];
        done := done + [rec.value];
        i := i + 1;
      }
      assert done + [] == done;
      return None;
    }
  }
}
