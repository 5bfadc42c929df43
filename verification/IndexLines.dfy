/** Reading the index payload line by line from a chunked stream, and appending to it. */
module IndexLines {
  import opened Options
  import opened BackupIndex

  const NEWLINE: Byte := 10

  /** White space that a byte string strips: tab, newline, vertical tab, form feed, return and space. */
  predicate IsSpace(b: Byte) {
    9 <= b <= 13 || b == 32
  }

  predicate Blank(line: Content) {
    forall b | b in line :: IsSpace(b)
  }

  // ----- splitting at newlines -----

  /** The lines ended by a newline, and what follows the last newline. */
  datatype Split = Split(ended: seq<Content>, rest: Content)

  function Step(s: Split, b: Byte): Split {
    if b == NEWLINE then Split(s.ended + [s.rest], []) else Split(s.ended, s.rest + [b])
  }

  /** Bytes that arrive later continue the unended rest. */
  function Feed(s: Split, more: Content): Split {
    if more == [] then s else Step(Feed(s, more[..|more| - 1]), more[|more| - 1])
  }

  function SplitLines(bytes: Content): Split {
    Feed(Split([], []), bytes)
  }

  function Ended(lines: seq<Content>): Content {
    if lines == [] then [] else Ended(lines[..|lines| - 1]) + lines[|lines| - 1] + [NEWLINE]
  }

  function Join(s: Split): Content {
    Ended(s.ended) + s.rest
  }

  predicate NewlineFree(s: Split) {
    (forall line | line in s.ended :: NEWLINE !in line) && NEWLINE !in s.rest
  }

  lemma {:induction false} FeedAppend(s: Split, more: Content, yet: Content)
    ensures Feed(s, more + yet) == Feed(Feed(s, more), yet)
  {
    if yet == [] {
      assert more + yet == more;
    } else {
      var n := |yet| - 1;
      assert (more + yet)[..|more + yet| - 1] == more + yet[..n];
      FeedAppend(s, more, yet[..n]);
    }
  }

  lemma StepJoins(s: Split, b: Byte)
    ensures Join(Step(s, b)) == Join(s) + [b]
  {
    if b == NEWLINE {
      assert (s.ended + [s.rest])[..|s.ended|] == s.ended;
    }
  }

  lemma {:induction false} FeedJoins(s: Split, more: Content)
    ensures Join(Feed(s, more)) == Join(s) + more
    ensures NewlineFree(s) ==> NewlineFree(Feed(s, more))
  {
    if more == [] {
      assert Join(s) + more == Join(s);
    } else {
      var n := |more| - 1;
      var t := Feed(s, more[..n]);
      FeedJoins(s, more[..n]);
      StepJoins(t, more[n]);
      assert more == more[..n] + [more[n]];
      assert Join(s) + more == (Join(s) + more[..n]) + [more[n]];
    }
  }

  /** Splitting loses nothing and leaves no newline inside a line. */
  lemma JoinSplit(bytes: Content)
    ensures Join(SplitLines(bytes)) == bytes && NewlineFree(SplitLines(bytes))
  {
    FeedJoins(Split([], []), bytes);
  }

  lemma {:induction false} FeedPlain(s: Split, line: Content)
    requires NEWLINE !in line
    ensures Feed(s, line) == Split(s.ended, s.rest + line)
  {
    if line == [] {
      assert s.rest + line == s.rest;
    } else {
      var n := |line| - 1;
      FeedPlain(s, line[..n]);
      assert line == line[..n] + [line[n]];
    }
  }

  /** A newline-free line and its newline are one ended line. */
  lemma FeedLine(lines: seq<Content>, line: Content)
    requires NEWLINE !in line
    ensures Feed(Split(lines, []), line + [NEWLINE]) == Split(lines + [line], [])
  {
    FeedPlain(Split(lines, []), line);
    assert [] + line == line;
    assert (line + [NEWLINE])[..|line|] == line;
  }

  lemma {:induction false} FeedEnded(lines: seq<Content>)
    requires forall line | line in lines :: NEWLINE !in line
    ensures SplitLines(Ended(lines)) == Split(lines, [])
  {
    if lines != [] {
      var n := |lines| - 1;
      FeedEnded(lines[..n]);
      FeedAppend(Split([], []), Ended(lines[..n]), lines[n] + [NEWLINE]);
      assert Ended(lines) == Ended(lines[..n]) + (lines[n] + [NEWLINE]);
      FeedLine(lines[..n], lines[n]);
      assert lines == lines[..n] + [lines[n]];
    }
  }

  /** Splitting is the only way to cut the bytes: it undoes joining newline-free lines. */
  lemma SplitJoin(s: Split)
    requires NewlineFree(s)
    ensures SplitLines(Join(s)) == s
  {
    FeedEnded(s.ended);
    FeedAppend(Split([], []), Ended(s.ended), s.rest);
    FeedPlain(Split(s.ended, []), s.rest);
    assert [] + s.rest == s.rest;
  }

  // ----- reading -----

  /** Lines yielded, and the number of the first invalid line if one stopped the reading. */
  datatype Reading = Reading(lines: seq<Content>, failed: Option<nat>)

  /** Read lines in order, numbered from one: blank ones are skipped but counted. */
  function ReadLines(lines: seq<Content>, valid: Content -> bool): Reading {
    if lines == [] then Reading([], None)
    else
      var last := lines[|lines| - 1];
      var before := ReadLines(lines[..|lines| - 1], valid);
      if before.failed.Some? || Blank(last) then before
      else if valid(last) then Reading(before.lines + [last], None)
      else Reading(before.lines, Some(|lines|))
  }

  /** What a payload says: its non-blank lines in order up to the first invalid one. */
  function ReadPayload(bytes: Content, valid: Content -> bool): Reading {
    var s := SplitLines(bytes);
    ReadLines(s.ended + [s.rest], valid)
  }

  lemma ReadOne(lines: seq<Content>, line: Content, valid: Content -> bool)
    requires ReadLines(lines, valid).failed.None?
    ensures var before := ReadLines(lines, valid);
      ReadLines(lines + [line], valid) ==
        if Blank(line) then before else if valid(line) then Reading(before.lines + [line],
          None) else Reading(before.lines, Some(|lines| + 1))
  {
    assert (lines + [line])[..|lines|] == lines;
  }

  /** Nothing is read after a failure. */
  lemma {:induction false} FailureStays(lines: seq<Content>, more: seq<Content>, valid: Content -> bool)
    requires ReadLines(lines, valid).failed.Some?
    ensures ReadLines(lines + more, valid) == ReadLines(lines, valid)
  {
    if more == [] {
      assert lines + more == lines;
    } else {
      var n := |more| - 1;
      assert (lines + more)[..|lines + more| - 1] == lines + more[..n];
      FailureStays(lines, more[..n], valid);
    }
  }

  /** The reading says exactly this: without a failure, the non-blank lines, all valid; with one, the lines before
      it, and the line it numbers is neither blank nor valid. */
  lemma {:induction false} ReadingMeans(lines: seq<Content>, valid: Content -> bool)
    ensures var r := ReadLines(lines, valid);
      match r.failed
      case None => r.lines == NonBlank(lines) && forall line | line in r.lines :: valid(line)
      case Some(n) =>
        && 1 <= n <= |lines| && !Blank(lines[n - 1]) && !valid(lines[n - 1])
        && r.lines == NonBlank(lines[..n - 1]) && forall line | line in r.lines :: valid(line)
  {
    if lines != [] {
      var n := |lines| - 1;
      ReadingMeans(lines[..n], valid);
      var before := ReadLines(lines[..n], valid);
      if before.failed.Some? {
        assert lines[..n][..before.failed.value - 1] == lines[..before.failed.value - 1];
      }
    }
  }

  function NonBlank(lines: seq<Content>): seq<Content> {
    if lines == [] then []
    else
      var last := lines[|lines| - 1];
      NonBlank(lines[..|lines| - 1]) + (if Blank(last) then [] else [last])
  }

  // ----- the streaming reader -----

  function Concat(chunks: seq<Content>): Content {
    if chunks == [] then [] else Concat(chunks[..|chunks| - 1]) + chunks[|chunks| - 1]
  }

  /** Position of the first newline at or after `start`, or the length when there is none. */
  function Find(bytes: Content, start: nat): (n: nat)
    requires start <= |bytes|
    ensures start <= n <= |bytes| && NEWLINE !in bytes[start..n] && (n < |bytes| ==> bytes[n] == NEWLINE)
    decreases |bytes| - start
  {
    if start == |bytes| || bytes[start] == NEWLINE then start else Find(bytes, start + 1)
  }

  /** Cut one line off the carried bytes. */
  lemma CutOne(lines: seq<Content>, carry: Content, start: nat, n: nat)
    requires start <= n < |carry| && NEWLINE !in carry[start..n] && carry[n] == NEWLINE
    ensures Feed(Split(lines, []), carry[start..]) == Feed(Split(lines + [carry[start..n]], []), carry[n + 1..])
  {
    assert carry[start..] == (carry[start..n] + [NEWLINE]) + carry[n + 1..];
    FeedAppend(Split(lines, []), carry[start..n] + [NEWLINE], carry[n + 1..]);
    FeedLine(lines, carry[start..n]);
  }

  /** Feeding more only adds ended lines. */
  lemma {:induction false} FeedExtends(s: Split, more: Content)
    ensures s.ended <= Feed(s, more).ended
  {
    if more != [] {
      FeedExtends(s, more[..|more| - 1]);
    }
  }

  lemma FailureFound(lines: seq<Content>, s: Split, valid: Content -> bool)
    requires ReadLines(lines, valid).failed.Some? && lines <= s.ended
    ensures ReadLines(s.ended, valid) == ReadLines(lines, valid)
  {
    assert s.ended == lines + s.ended[|lines|..];
    FailureStays(lines, s.ended[|lines|..], valid);
  }

  /** Yield the ended lines of the carried bytes and keep what follows them. */
  method DrainCarry(carry: Content, lines: seq<Content>, number: nat, valid: Content -> bool, ghost ended: seq<Content>)
    returns (carry': Content, lines': seq<Content>, number': nat, failed: Option<nat>)
    requires ReadLines(ended, valid) == Reading(lines, None) && number == |ended|
    ensures var s := Feed(Split(ended, []), carry);
      && ReadLines(s.ended, valid) == Reading(lines', failed)
      && (failed.None? ==> carry' == s.rest && number' == |s.ended|)
  {
    lines', number', failed := lines, number, None;
    var start := 0;
    ghost var done := ended;
    ghost var all := Feed(Split(ended, []), carry);
    assert carry[0..] == carry;
    var n := Find(carry, start);
    while n < |carry|
      invariant start <= n <= |carry| && n == Find(carry, start) && number' == |done|
      invariant ReadLines(done, valid) == Reading(lines', None)
      invariant all == Feed(Split(done, []), carry[start..])
      decreases |carry| - start
    {
      CutOne(done, carry, start, n);
      var line := carry[start..n];
      ReadOne(done, line, valid);
      done := done + [line];
      number' := number' + 1;
      start := n + 1;
      if !Blank(line) {
        if !valid(line) {
          failed := Some(number');
          FeedExtends(Split(done, []), carry[start..]);
          FailureFound(done, all, valid);
          return carry, lines', number', failed;
        }
        lines' := lines' + [line];
      }
      n := Find(carry, start);
    }
    carry' := carry[start..];
    assert carry[start..n] == carry[start..];
    FeedPlain(Split(done, []), carry');
    assert [] + carry' == carry';
  }

  /** The reader's state after the bytes `seen`: the rest carried, the lines yielded and their count. */
  ghost predicate Reads(seen: Content, carry: Content, lines: seq<Content>, number: nat, valid: Content -> bool) {
    var s := SplitLines(seen);
    carry == s.rest && number == |s.ended| && ReadLines(s.ended, valid) == Reading(lines, None)
  }

  /** Feeding a chunk is feeding the carried rest and the chunk from a line boundary. */
  lemma FeedChunk(seen: Content, chunk: Content)
    ensures var s := SplitLines(seen);
      SplitLines(seen + chunk) == Feed(Split(s.ended, []), s.rest + chunk)
  {
    var s := SplitLines(seen);
    JoinSplit(seen);
    FeedAppend(Split([], []), seen, chunk);
    FeedAppend(Split(s.ended, []), s.rest, chunk);
    FeedPlain(Split(s.ended, []), s.rest);
    assert [] + s.rest == s.rest;
  }

  lemma {:induction false} ConcatPrefix(chunks: seq<Content>, k: nat)
    requires k <= |chunks|
    ensures Concat(chunks[..k]) <= Concat(chunks)
    decreases |chunks| - k
  {
    if k == |chunks| {
      assert chunks[..k] == chunks;
    } else {
      var last := |chunks| - 1;
      ConcatPrefix(chunks[..last], k);
      assert chunks[..last][..k] == chunks[..k];
    }
  }

  /** A failure found in a prefix of the stream is the failure of the whole payload. */
  lemma StoppedAt(seen: Content, all: Content, valid: Content -> bool)
    requires seen <= all && ReadLines(SplitLines(seen).ended, valid).failed.Some?
    ensures ReadPayload(all, valid) == ReadLines(SplitLines(seen).ended, valid)
  {
    assert all == seen + all[|seen|..];
    FeedAppend(Split([], []), seen, all[|seen|..]);
    FeedExtends(SplitLines(seen), all[|seen|..]);
    FailureFound(SplitLines(seen).ended, SplitLines(all), valid);
    FailureStays(SplitLines(all).ended, [SplitLines(all).rest], valid);
  }

  /** Read a chunked stream.  However the payload is cut into chunks, the lines and the error are those of the
      whole payload. */
  method IterIndexLines(chunks: seq<Content>, valid: Content -> bool) returns (lines: seq<Content>, failed: Option<nat>)
    requires forall chunk | chunk in chunks :: chunk != []
    ensures Reading(lines, failed) == ReadPayload(Concat(chunks), valid)
  {
    var carry: Content, number := [], 0;
    lines, failed := [], None;
    for k := 0 to |chunks|
      invariant Reads(Concat(chunks[..k]), carry, lines, number, valid) && failed.None?
    {
      ghost var seen := Concat(chunks[..k]);
      assert chunks[..k + 1][..k] == chunks[..k];
      FeedChunk(seen, chunks[k]);
      carry, lines, number, failed := DrainCarry(carry + chunks[k], lines, number, valid, SplitLines(seen).ended);
      if failed.Some? {
        ConcatPrefix(chunks, k + 1);
        StoppedAt(Concat(chunks[..k + 1]), Concat(chunks), valid);
        return;
      }
    }
    assert chunks[..|chunks|] == chunks;
    ReadOne(SplitLines(Concat(chunks)).ended, carry, valid);
    if !Blank(carry) {
      number := number + 1;
      if !valid(carry) {
        failed := Some(number);
        return;
      }
      lines := lines + [carry];
    }
  }

  // ----- appending -----

  /** The bytes of one encoded entry are a valid, non-blank line without newlines. */
  predicate WellEncoded(line: Content, valid: Content -> bool) {
    NEWLINE !in line && !Blank(line) && valid(line)
  }

  /** A payload that ends with a newline reads as its ended lines. */
  lemma ReadEnded(bytes: Content, valid: Content -> bool)
    requires SplitLines(bytes).rest == []
    ensures ReadPayload(bytes, valid) == ReadLines(SplitLines(bytes).ended, valid)
  {
    var s := SplitLines(bytes);
    assert (s.ended + [s.rest])[..|s.ended|] == s.ended;
  }

  lemma AppendLine(bytes: Content, line: Content, valid: Content -> bool)
    requires WellEncoded(line, valid) && SplitLines(bytes).rest == []
    ensures var r, r' := ReadPayload(bytes, valid), ReadPayload(bytes + (line + [NEWLINE]), valid);
      r' == Extended(r, [line])
    ensures SplitLines(bytes + (line + [NEWLINE])).rest == []
  {
    var s := SplitLines(bytes);
    FeedAppend(Split([], []), bytes, line + [NEWLINE]);
    FeedLine(s.ended, line);
    ReadEnded(bytes, valid);
    ReadEnded(bytes + (line + [NEWLINE]), valid);
    assert (s.ended + [line])[..|s.ended|] == s.ended;
  }

  /** Ending an unended payload changes nothing that is read. */
  lemma EndLine(bytes: Content, valid: Content -> bool)
    ensures ReadPayload(bytes + [NEWLINE], valid) == ReadPayload(bytes, valid)
    ensures SplitLines(bytes + [NEWLINE]).rest == []
  {
    assert (bytes + [NEWLINE])[..|bytes|] == bytes;
    ReadEnded(bytes + [NEWLINE], valid);
  }

  /** Copy the old payload and end its last line if needed. */
  method CopyEnded(chunks: seq<Content>, ghost valid: Content -> bool) returns (bytes: Content)
    requires forall chunk | chunk in chunks :: chunk != []
    ensures Concat(chunks) <= bytes && SplitLines(bytes).rest == []
    ensures ReadPayload(bytes, valid) == ReadPayload(Concat(chunks), valid)
  {
    bytes := [];
    var last := NEWLINE;
    for k := 0 to |chunks|
      invariant bytes == Concat(chunks[..k])
      invariant last == if bytes == [] then NEWLINE else bytes[|bytes| - 1]
    {
      assert chunks[..k + 1][..k] == chunks[..k];
      assert chunks[k] in chunks;
      bytes := bytes + chunks[k];
      last := chunks[k][|chunks[k]| - 1];
    }
    assert chunks[..|chunks|] == chunks;
    EndLine(bytes, valid);
    if last != NEWLINE {
      bytes := bytes + [NEWLINE];
    }
  }

  /** The reading after some lines more. */
  function Extended(r: Reading, lines: seq<Content>): Reading {
    if r.failed.Some? then r else Reading(r.lines + lines, None)
  }

  lemma ExtendedOne(r: Reading, lines: seq<Content>, n: nat)
    requires n < |lines|
    ensures Extended(Extended(r, lines[..n]), [lines[n]]) == Extended(r, lines[..n + 1])
  {
    assert r.lines + lines[..n + 1] == r.lines + lines[..n] + [lines[n]];
  }

  /** Copy the old payload, end its last line if needed, and append the encoded entries.  What is read back is
      what was read before, then the new lines. */
  method AppendPayload(chunks: seq<Content>, encoded: seq<Content>, valid: Content -> bool) returns (bytes: Content)
    requires (forall chunk | chunk in chunks :: chunk != []) && forall line | line in encoded ::
      WellEncoded(line, valid)
    ensures Concat(chunks) <= bytes
    ensures ReadPayload(bytes, valid) == Extended(ReadPayload(Concat(chunks), valid), encoded)
  {
    bytes := CopyEnded(chunks, valid);
    ghost var r := ReadPayload(Concat(chunks), valid);
    assert r.lines + [] == r.lines;
    for k := 0 to |encoded|
      invariant Concat(chunks) <= bytes && SplitLines(bytes).rest == []
      invariant ReadPayload(bytes, valid) == Extended(r, encoded[..k])
    {
      assert encoded[k] in encoded;
      AppendLine(bytes, encoded[k], valid);
      ExtendedOne(r, encoded, k);
      bytes := bytes + (encoded[k] + [NEWLINE]);
    }
    assert encoded[..|encoded|] == encoded;
  }
}
