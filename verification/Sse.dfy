/**
 * Server-sent events: the frame printer of the backend and the two incremental
 * parsers of the client, which split the decoded text stream on different
 * separators. A chunk is any piece of the stream.
 */
module Sse {
  import opened Prelude

  // ---------- Splitting ----------

  predicate OccursAt(s: string, d: string, i: nat) {
    i + |d| <= |s| && s[i..i + |d|] == d
  }

  /** The first occurrence of d in s at or after position i. */
  function Find(s: string, d: string, i: nat): (r: Option<nat>)
    ensures r.Some? ==> i <= r.value && OccursAt(s, d, r.value) && forall j :: i <= j < r.value ==> !OccursAt(s, d, j)
    ensures r.None? ==> forall j :: i <= j ==> !OccursAt(s, d, j)
    decreases |s| - i
  {
    if i + |d| > |s| then None else if OccursAt(s, d, i) then Some(i) else Find(s, d, i + 1)
  }

  /** s.split(d): the pieces between non-overlapping occurrences, found from the left; never empty. */
  function Split(s: string, d: string): (r: seq<string>)
    requires d != ""
    ensures r != []
    decreases |s|
  {
    match Find(s, d, 0)
    case None => [s]
    case Some(i) => [s[..i]] + Split(s[i + |d|..], d)
  }

  /** What has been cut off so far, and the text after the last separator. */
  datatype Cut = Cut(parts: seq<string>, tail: string)

  predicate EndsWith(s: string, d: string) {
    |d| <= |s| && s[|s| - |d|..] == d
  }

  /** Reads s character by character behind the pending text t, cutting whenever a separator is complete. */
  function Scan(d: string, t: string, s: string): Cut
    decreases |s|
  {
    if s == "" then Cut([], t)
    else
      var u := t + [s[0]];
      if EndsWith(u, d) then
        var rest := Scan(d, "", s[1..]);
        Cut([u[..|u| - |d|]] + rest.parts, rest.tail)
      else Scan(d, u, s[1..])
  }

  ghost predicate Pending(d: string, t: string) {
    forall i: nat :: !OccursAt(t, d, i)
  }

  /** Reading two pieces one after the other is reading them joined. */
  lemma {:induction false} ScanConcat(d: string, t: string, a: string, b: string)
    ensures
      var first := Scan(d, t, a);
      var second := Scan(d, first.tail, b);
      Scan(d, t, a + b) == Cut(first.parts + second.parts, second.tail)
    decreases |a|
  {
    if a == "" {
      assert a + b == b;
    } else {
      var u := t + [a[0]];
      assert (a + b)[1..] == a[1..] + b;
      if EndsWith(u, d) {
        ScanConcat(d, "", a[1..], b);
      } else {
        ScanConcat(d, u, a[1..], b);
      }
    }
  }

  lemma OccursInPrefix(t: string, s: string, d: string, i: nat)
    requires i + |d| <= |t|
    ensures OccursAt(t + s, d, i) == OccursAt(t, d, i)
  {
    assert (t + s)[i..i + |d|] == t[i..i + |d|];
  }

  lemma PendingGrows(d: string, t: string, c: char)
    requires d != "" && Pending(d, t) && !EndsWith(t + [c], d)
    ensures Pending(d, t + [c])
  {
    forall i: nat ensures !OccursAt(t + [c], d, i) {
      if i + |d| <= |t| {
        OccursInPrefix(t, [c], d, i);
      } else if i + |d| == |t| + 1 {
        assert (t + [c])[i..i + |d|] == (t + [c])[|t| + 1 - |d|..];
      }
    }
  }

  lemma {:induction false} ScanTailPending(d: string, t: string, s: string)
    requires d != "" && Pending(d, t)
    ensures Pending(d, Scan(d, t, s).tail)
    decreases |s|
  {
    if s != "" {
      if EndsWith(t + [s[0]], d) {
        ScanTailPending(d, "", s[1..]);
      } else {
        PendingGrows(d, t, s[0]);
        ScanTailPending(d, t + [s[0]], s[1..]);
      }
    }
  }

  /** A separator that has just become complete is the first one in the text. */
  lemma {:induction false} FindFirstComplete(d: string, u: string, s: string)
    requires d != "" && EndsWith(u, d) && Pending(d, u[..|u| - 1])
    ensures Find(u + s, d, 0) == Some(|u| - |d|)
  {
    var t, last := u[..|u| - 1], u[|u| - 1..];
    var k := |u| - |d|;
    assert u[k..k + |d|] == u[k..] && u == t + last;
    OccursInPrefix(u, s, d, k);
    forall j: nat | j < k ensures !OccursAt(u + s, d, j) {
      OccursInPrefix(u, s, d, j);
      OccursInPrefix(t, last, d, j);
    }
    FindIs(u + s, d, k);
  }

  lemma FindIs(s: string, d: string, k: nat)
    requires OccursAt(s, d, k) && forall j: nat :: j < k ==> !OccursAt(s, d, j)
    ensures Find(s, d, 0) == Some(k)
  {}

  lemma ShiftChar(t: string, s: string)
    requires s != ""
    ensures t + s == t + [s[0]] + s[1..]
  {}

  /** Splitting pending text plus a chunk gives what the scan cuts, with the scan's tail as the last piece. */
  lemma {:induction false} SplitIsScan(d: string, t: string, s: string)
    requires d != "" && Pending(d, t)
    ensures Split(t + s, d) == Scan(d, t, s).parts + [Scan(d, t, s).tail]
    decreases |s|
  {
    if s == "" {
      assert t + s == t;
    } else {
      var u := t + [s[0]];
      ShiftChar(t, s);
      if EndsWith(u, d) {
        assert u[..|u| - 1] == t;
        FindFirstComplete(d, u, s[1..]);
        SplitAtFirst(u, s[1..], d);
        AppendNothing(s[1..]);
        SplitIsScan(d, "", s[1..]);
        var rest := Scan(d, "", s[1..]);
        AppendAssociates([u[..|u| - |d|]], rest.parts, [rest.tail]);
      } else {
        PendingGrows(d, t, s[0]);
        SplitIsScan(d, u, s[1..]);
      }
    }
  }

  lemma SplitAtFirst(u: string, s: string, d: string)
    requires d != "" && |d| <= |u| && Find(u + s, d, 0) == Some(|u| - |d|)
    ensures Split(u + s, d) == [u[..|u| - |d|]] + Split(s, d)
  {
    var k := |u| - |d|;
    assert (u + s)[..k] == u[..k];
    assert (u + s)[k + |d|..] == s;
  }

  /** The pieces with a separator between each two. */
  function Joined(parts: seq<string>, d: string): string {
    if parts == [] then "" else if |parts| == 1 then parts[0] else parts[0] + d + Joined(parts[1..], d)
  }

  /** Splitting loses nothing and misses no separator. */
  lemma {:induction false} SplitJoins(s: string, d: string)
    requires d != ""
    ensures Joined(Split(s, d), d) == s && forall p :: p in Split(s, d) ==> Pending(d, p)
    decreases |s|
  {
    match Find(s, d, 0)
    case None =>
    case Some(i) =>
      var rest := s[i + |d|..];
      SplitJoins(rest, d);
      var parts := [s[..i]] + Split(rest, d);
      assert parts[1..] == Split(rest, d);
      assert s == s[..i] + s[i..i + |d|] + rest;
      PendingBeforeFirst(s, d, i);
  }

  lemma PendingBeforeFirst(s: string, d: string, i: nat)
    requires d != "" && i <= |s| && forall j: nat :: j < i ==> !OccursAt(s, d, j)
    ensures Pending(d, s[..i])
  {
    forall j: nat ensures !OccursAt(s[..i], d, j) {
      if j + |d| <= i {
        assert s == s[..i] + s[i..];
        OccursInPrefix(s[..i], s[i..], d, j);
      }
    }
  }

  // ---------- What the parsers take from a piece ----------

  predicate StartsWith(s: string, p: string) {
    p <= s
  }

  /** White space in the sense of trim(). */
  predicate IsSpace(c: char) {
    var n := c as int;
    9 <= n <= 13 || n == 32 || n == 0xA0 || n == 0x1680 || 0x2000 <= n <= 0x200A
    || n == 0x2028 || n == 0x2029 || n == 0x202F || n == 0x205F || n == 0x3000 || n == 0xFEFF
  }

  function TrimLeft(s: string): string {
    if s != "" && IsSpace(s[0]) then TrimLeft(s[1..]) else s
  }

  function TrimRight(s: string): string {
    if s != "" && IsSpace(s[|s| - 1]) then TrimRight(s[..|s| - 1]) else s
  }

  function Trim(s: string): string {
    TrimRight(TrimLeft(s))
  }

  predicate AllSpace(s: string) {
    forall c :: c in s ==> IsSpace(c)
  }

  /** Trimming cuts off exactly the white space at both ends. */
  lemma TrimMeaning(s: string) returns (i: nat, j: nat)
    ensures i <= j <= |s| && Trim(s) == s[i..j] && AllSpace(s[..i]) && AllSpace(s[j..])
    ensures i < j ==> !IsSpace(s[i]) && !IsSpace(s[j - 1])
  {
    i := LeadingSpace(s);
    var k := TrailingSpace(s[i..]);
    j := i + k;
    assert s[i..][..k] == s[i..j] && s[i..][k..] == s[j..];
    if i < j {
      assert s[i..][0] == s[i] && s[i..][k - 1] == s[j - 1];
    }
  }

  lemma {:induction false} LeadingSpace(s: string) returns (i: nat)
    ensures i <= |s| && TrimLeft(s) == s[i..] && AllSpace(s[..i]) && (i < |s| ==> !IsSpace(s[i]))
  {
    i := 0;
    if s != "" && IsSpace(s[0]) {
      var k := LeadingSpace(s[1..]);
      i := 1 + k;
      assert s[..i] == [s[0]] + s[1..][..k];
    }
  }

  lemma {:induction false} TrailingSpace(s: string) returns (j: nat)
    ensures j <= |s| && TrimRight(s) == s[..j] && AllSpace(s[j..]) && (j > 0 ==> !IsSpace(s[j - 1]))
  {
    j := |s|;
    if s != "" && IsSpace(s[|s| - 1]) {
      var init := s[..|s| - 1];
      j := TrailingSpace(init);
      assert s[j..] == init[j..] + [s[|s| - 1]];
    }
  }

  /** The line parser takes what follows "data:" in any line, trimmed. */
  function FromLine(line: string): seq<string> {
    if StartsWith(line, "data:") then [Trim(line[5..])] else []
  }

  function FirstData(lines: seq<string>): seq<string> {
    if lines == [] then [] else if StartsWith(lines[0], "data: ") then [lines[0][6..]] else FirstData(lines[1..])
  }

  /** The block parser takes what follows "data: " in the first such line of a block. */
  function FromBlock(part: string): seq<string> {
    FirstData(Split(part, "\n"))
  }

  ghost predicate IsFirstData(lines: seq<string>, k: nat) {
    && k < |lines| && StartsWith(lines[k], "data: ")
    && forall j :: 0 <= j < k ==> !StartsWith(lines[j], "data: ")
  }

  /** The first line with the prefix counts, all others are ignored. */
  lemma {:induction false} FirstDataMeaning(lines: seq<string>)
    ensures FirstData(lines) == [] <==> forall k :: 0 <= k < |lines| ==> !StartsWith(lines[k], "data: ")
    ensures forall k: nat :: IsFirstData(lines, k) ==> FirstData(lines) == [lines[k][6..]]
  {
    if lines != [] {
      var rest := lines[1..];
      FirstDataMeaning(rest);
      forall k: nat | IsFirstData(lines, k) ensures FirstData(lines) == [lines[k][6..]] {
        if k > 0 {
          assert !StartsWith(lines[0], "data: ");
          assert IsFirstData(rest, k - 1);
        }
      }
      assert forall k :: 0 < k < |lines| ==> lines[k] == rest[k - 1];
    }
  }

  /** A line without the space after the colon counts for the line parser only. */
  lemma NoSpaceAfterColon(p: string)
    requires OneLine(p) && !StartsWith(p, " ")
    ensures FromLine("data:" + p) == [Trim(p)] && FromBlock("data:" + p) == []
  {
    var line := "data:" + p;
    assert line[..5] == "data:" && line[5..] == p;
    SplitPlain(line);
    FirstDataMeaning([line]);
  }

  function Taken(take: string -> seq<string>, parts: seq<string>): seq<string> {
    if parts == [] then [] else take(parts[0]) + Taken(take, parts[1..])
  }

  lemma {:induction false} TakenConcat(take: string -> seq<string>, a: seq<string>, b: seq<string>)
    ensures Taken(take, a + b) == Taken(take, a) + Taken(take, b)
  {
    if a == [] {
      assert a + b == b;
    } else {
      TakenConcat(take, a[1..], b);
      assert (a + b)[0] == a[0] && (a + b)[1..] == a[1..] + b;
      AppendAssociates(take(a[0]), Taken(take, a[1..]), Taken(take, b));
    }
  }

  // ---------- The printer ----------

  datatype Frame = Data(payload: string) | Heartbeat

  function Body(f: Frame): string {
    match f
    case Data(p) => "data: " + p
    case Heartbeat => ": heartbeat"
  }

  function Print(frames: seq<Frame>): string {
    if frames == [] then "" else Body(frames[0]) + "\n\n" + Print(frames[1..])
  }

  function Payloads(frames: seq<Frame>): seq<string> {
    if frames == [] then []
    else (if frames[0].Data? then [frames[0].payload] else []) + Payloads(frames[1..])
  }

  /** A payload as the JSON printer produces it: without a line feed. */
  predicate OneLine(p: string) {
    '\n' !in p
  }

  ghost predicate AllOneLine(frames: seq<Frame>) {
    forall f :: f in frames && f.Data? ==> OneLine(f.payload)
  }

  lemma {:induction false} PrintSnoc(frames: seq<Frame>, f: Frame)
    ensures Print(frames + [f]) == Print(frames) + (Body(f) + "\n\n")
  {
    if frames == [] {
      var one: seq<Frame> := [f];
      assert frames + [f] == one && one[1..] == [];
    } else {
      PrintSnoc(frames[1..], f);
      assert (frames + [f])[0] == frames[0] && (frames + [f])[1..] == frames[1..] + [f];
      AppendAssociates(Body(frames[0]) + "\n\n", Print(frames[1..]), Body(f) + "\n\n");
    }
  }

  /** The response body as it is written, and the frames it is made of. */
  class SseWriter {
    var out: string
    ghost var frames: seq<Frame>

    ghost predicate Valid()
      reads this
    {
      out == Print(frames)
    }

    constructor ()
      ensures Valid() && frames == []
    {
      out, frames := "", [];
    }

    method WriteSSE(payload: string)
      requires Valid()
      modifies this
      ensures Valid() && frames == old(frames) + [Data(payload)]
      ensures out == old(out) + ("data: " + payload + "\n\n")
    {
      PrintSnoc(frames, Data(payload));
      out := out + ("data: " + payload + "\n\n");
      frames := frames + [Data(payload)];
    }

    method WriteHeartbeat()
      requires Valid()
      modifies this
      ensures Valid() && frames == old(frames) + [Heartbeat] && out == old(out) + ": heartbeat\n\n"
    {
      PrintSnoc(frames, Heartbeat);
      out := out + ": heartbeat\n\n";
      frames := frames + [Heartbeat];
    }
  }

  lemma PlainEnd(d: string, t: string, c: char)
    requires d == "\n" || d == "\n\n"
    requires c != '\n'
    ensures !EndsWith(t + [c], d)
  {
    var u := t + [c];
    if |d| <= |u| {
      assert u[|u| - |d|..][|d| - 1] == c;
    }
  }

  lemma {:induction false} ScanPlain(d: string, t: string, s: string)
    requires d == "\n" || d == "\n\n"
    requires '\n' !in s && '\n' !in t
    ensures Scan(d, t, s) == Cut([], t + s)
    decreases |s|
  {
    if s == "" {
      assert t + s == t;
    } else {
      var u := t + [s[0]];
      assert s[0] in s;
      PlainEnd(d, t, s[0]);
      ScanPlain(d, u, s[1..]);
      ShiftChar(t, s);
    }
  }

  lemma BodyPlain(f: Frame)
    requires f.Data? ==> OneLine(f.payload)
    ensures '\n' !in Body(f)
  {}

  /** Split on blank lines, a printed stream gives back its frames. */
  lemma {:induction false} ScanBlocks(frames: seq<Frame>)
    requires AllOneLine(frames)
    ensures Scan("\n\n", "", Print(frames)) == Cut(Bodies(frames), "")
  {
    if frames != [] {
      var b, rest := Body(frames[0]), Print(frames[1..]);
      BodyPlain(frames[0]);
      ScanPlain("\n\n", "", b);
      AppendNothing(b);
      ScanConcat("\n\n", "", b, "\n\n" + rest);
      AppendAssociates(b, "\n\n", rest);
      TwoLineFeeds(b, rest);
      ScanBlocks(frames[1..]);
    }
  }

  lemma TwoLineFeeds(b: string, rest: string)
    requires '\n' !in b
    ensures Scan("\n\n", b, "\n\n" + rest) == var r := Scan("\n\n", "", rest); Cut([b] + r.parts, r.tail)
  {
    var s := "\n\n" + rest;
    var u := b + "\n";
    assert s[0] == '\n' && s[1..] == "\n" + rest;
    if |b| > 0 {
      assert b[|b| - 1] in b && u[|u| - 2..][0] == b[|b| - 1];
    }
    var v := u + "\n";
    assert v[|v| - 2..] == "\n\n" && v[..|v| - 2] == b;
    assert s[1..][0] == '\n' && s[1..][1..] == rest;
  }

  lemma OneLineFeed(b: string, rest: string)
    requires '\n' !in b
    ensures Scan("\n", b, "\n" + rest) == var r := Scan("\n", "", rest); Cut([b] + r.parts, r.tail)
  {
    var s, u := "\n" + rest, b + "\n";
    assert s[0] == '\n' && s[1..] == rest;
    assert u[|u| - 1..] == "\n" && u[..|u| - 1] == b;
  }

  function BodyLines(frames: seq<Frame>): seq<string> {
    if frames == [] then [] else [Body(frames[0]), ""] + BodyLines(frames[1..])
  }

  function Bodies(frames: seq<Frame>): seq<string> {
    if frames == [] then [] else [Body(frames[0])] + Bodies(frames[1..])
  }

  /** Split on line feeds, a printed stream gives each frame's line followed by an empty one. */
  lemma {:induction false} ScanLines(frames: seq<Frame>)
    requires AllOneLine(frames)
    ensures Scan("\n", "", Print(frames)) == Cut(BodyLines(frames), "")
  {
    if frames != [] {
      BodyPlain(frames[0]);
      FrameLines(Body(frames[0]), Print(frames[1..]));
      ScanLines(frames[1..]);
    }
  }

  lemma FrameLines(b: string, rest: string)
    requires '\n' !in b
    ensures Scan("\n", "", b + "\n\n" + rest) == var r := Scan("\n", "", rest); Cut([b, ""] + r.parts, r.tail)
  {
    var after := "\n" + ("\n" + rest);
    TwoFeeds(rest);
    AppendAssociates(b, "\n\n", rest);
    ScanPlain("\n", "", b);
    AppendNothing(b);
    ScanConcat("\n", "", b, after);
    OneLineFeed(b, "\n" + rest);
    OneLineFeed("", rest);
    TwoPieces(b, "", Scan("\n", "", rest).parts);
  }

  lemma TwoFeeds(rest: string)
    ensures "\n\n" + rest == "\n" + ("\n" + rest)
  {}

  lemma AppendNothing(b: string)
    ensures "" + b == b
  {}

  lemma TwoPieces(a: string, b: string, rest: seq<string>)
    ensures [a] + ([b] + rest) == [a, b] + rest
  {}

  lemma TrimPayload(p: string)
    ensures Trim(" " + p) == Trim(p)
  {
    assert (" " + p)[0] == ' ' && (" " + p)[1..] == p;
    assert TrimLeft(" " + p) == TrimLeft(p);
  }

  function TrimAll(ps: seq<string>): seq<string> {
    if ps == [] then [] else [Trim(ps[0])] + TrimAll(ps[1..])
  }

  lemma TrimAllCons(p: string, ps: seq<string>)
    ensures TrimAll([p] + ps) == [Trim(p)] + TrimAll(ps)
  {
    assert ([p] + ps)[1..] == ps;
  }

  lemma EmptyFirst(ps: seq<string>)
    ensures [] + ps == ps
  {}

  lemma {:induction false} TrimAllChangesNothingIff(ps: seq<string>)
    ensures TrimAll(ps) == ps <==> forall p :: p in ps ==> Trim(p) == p
  {
    if ps != [] {
      TrimAllChangesNothingIff(ps[1..]);
      assert ps == [ps[0]] + ps[1..];
      assert TrimAll(ps)[0] == Trim(ps[0]) && TrimAll(ps)[1..] == TrimAll(ps[1..]);
    }
  }

  lemma SplitPlain(b: string)
    requires '\n' !in b
    ensures Split(b, "\n") == [b]
  {
    ScanPlain("\n", "", b);
    AppendNothing(b);
    SplitIsScan("\n", "", b);
  }

  lemma TakePayload(p: string)
    requires OneLine(p)
    ensures FromLine(Body(Data(p))) == [Trim(p)] && FromBlock(Body(Data(p))) == [p]
  {
    var b := Body(Data(p));
    BodyPlain(Data(p));
    SplitPlain(b);
    assert b[..5] == "data:" && b[..6] == "data: ";
    assert b[5..] == " " + p && b[6..] == p;
    TrimPayload(p);
  }

  lemma TakeHeartbeat()
    ensures FromLine(Body(Heartbeat)) == [] && FromBlock(Body(Heartbeat)) == [] && FromLine("") == []
  {
    var b := Body(Heartbeat);
    BodyPlain(Heartbeat);
    SplitPlain(b);
    assert b[0] == ':' && "data:"[0] == 'd' && "data: "[0] == 'd';
    assert !StartsWith(b, "data:") && !StartsWith(b, "data: ");
    var lines: seq<string> := [b];
    assert lines[1..] == [] && FirstData(lines) == [];
  }

  lemma TakenTwo(take: string -> seq<string>, a: string, b: string, rest: seq<string>)
    requires take(b) == []
    ensures Taken(take, [a, b] + rest) == take(a) + Taken(take, rest)
  {
    var l := [a, b] + rest;
    assert l[0] == a && l[1..][0] == b && l[1..][1..] == rest;
    assert [] + Taken(take, rest) == Taken(take, rest);
  }

  lemma {:induction false} LinesGivePayloads(frames: seq<Frame>)
    requires AllOneLine(frames)
    ensures Taken(FromLine, BodyLines(frames)) == TrimAll(Payloads(frames))
  {
    if frames != [] {
      TakeHeartbeat();
      LinesGivePayloads(frames[1..]);
      TakenTwo(FromLine, Body(frames[0]), "", BodyLines(frames[1..]));
      if frames[0].Data? {
        TakePayload(frames[0].payload);
        TrimAllCons(frames[0].payload, Payloads(frames[1..]));
      } else {
        EmptyFirst(Payloads(frames[1..]));
        EmptyFirst(TrimAll(Payloads(frames[1..])));
      }
    }
  }

  lemma {:induction false} BlocksGivePayloads(frames: seq<Frame>)
    requires AllOneLine(frames)
    ensures Taken(FromBlock, Bodies(frames)) == Payloads(frames)
  {
    if frames != [] {
      TakeHeartbeat();
      if frames[0].Data? { TakePayload(frames[0].payload); }
      BlocksGivePayloads(frames[1..]);
      assert Bodies(frames)[1..] == Bodies(frames[1..]);
    }
  }

  /** The payloads a parser has taken from a stream read so far. */
  function LinePayloads(stream: string): seq<string> {
    Taken(FromLine, Scan("\n", "", stream).parts)
  }

  function BlockPayloads(stream: string): seq<string> {
    Taken(FromBlock, Scan("\n\n", "", stream).parts)
  }

  /** The block parser takes exactly the printed payloads, the line parser trims them, and both keep nothing back. */
  lemma {:induction false} PrintedStreamParses(frames: seq<Frame>)
    requires AllOneLine(frames)
    ensures
      && BlockPayloads(Print(frames)) == Payloads(frames)
      && LinePayloads(Print(frames)) == TrimAll(Payloads(frames))
      && Scan("\n", "", Print(frames)).tail == "" && Scan("\n\n", "", Print(frames)).tail == ""
  {
    ScanLines(frames);
    ScanBlocks(frames);
    LinesGivePayloads(frames);
    BlocksGivePayloads(frames);
  }

  /** The two parsers agree on a printed stream exactly when no payload begins or ends with white space. */
  lemma ParsersAgreeIff(frames: seq<Frame>)
    requires AllOneLine(frames)
    ensures
      LinePayloads(Print(frames)) == BlockPayloads(Print(frames))
      <==> (forall p :: p in Payloads(frames) ==> Trim(p) == p)
  {
    PrintedStreamParses(frames);
    TrimAllChangesNothingIff(Payloads(frames));
  }

  /** After any part of a stream, each parser has taken a prefix of what it takes in the end. */
  lemma PartialStreamParses(a: string, b: string)
    ensures LinePayloads(a) <= LinePayloads(a + b) && BlockPayloads(a) <= BlockPayloads(a + b)
  {
    ScanConcat("\n", "", a, b);
    ScanConcat("\n\n", "", a, b);
    TakenConcat(FromLine, Scan("\n", "", a).parts, Scan("\n", Scan("\n", "", a).tail, b).parts);
    TakenConcat(FromBlock, Scan("\n\n", "", a).parts, Scan("\n\n", Scan("\n\n", "", a).tail, b).parts);
  }

  // ---------- The parsers' loops ----------

  function Join(chunks: seq<string>): string {
    if chunks == [] then "" else Join(chunks[..|chunks| - 1]) + chunks[|chunks| - 1]
  }

  lemma JoinNext(chunks: seq<string>, i: nat)
    requires i < |chunks|
    ensures Join(chunks[..i + 1]) == Join(chunks[..i]) + chunks[i]
  {
    assert chunks[..i + 1][..i] == chunks[..i];
  }

  datatype Phase = Done | Error | Other

  datatype Message = Message(phase: Phase, body: string)

  /** JSON.parse; None when it throws. */
  type Parse = string -> Option<Message>

  /** The messages of the payloads that parse. */
  function Messages(parse: Parse, payloads: seq<string>): seq<Message> {
    if payloads == [] then []
    else
      var n := |payloads| - 1;
      match parse(payloads[n])
      case Some(m) => Messages(parse, payloads[..n]) + [m]
      case None => Messages(parse, payloads[..n])
  }

  lemma {:induction false} MessagesConcat(parse: Parse, a: seq<string>, b: seq<string>)
    ensures Messages(parse, a + b) == Messages(parse, a) + Messages(parse, b)
    decreases |b|
  {
    if b == [] {
      assert a + b == a;
    } else {
      MessagesConcat(parse, a, b[..|b| - 1]);
      assert (a + b)[..|a + b| - 1] == a + b[..|b| - 1];
    }
  }

  /** The line-buffered reader that hands every message to a callback and remembers the last one. */
  class LineReader {
    const parse: Parse
    var buffer: string
    var events: seq<Message>   // what the callback has seen
    var last: Option<Message>
    ghost var stream: string   // everything read so far

    ghost predicate Valid()
      reads this
    {
      && Scan("\n", "", stream).tail == buffer
      && events == Messages(parse, LinePayloads(stream))
      && last == LastOf(events)
    }

    constructor (parse: Parse)
      ensures Valid() && stream == "" && this.parse == parse
    {
      this.parse, buffer, events, last, stream := parse, "", [], None, "";
    }

    method Read(chunk: string)
      requires Valid()
      modifies this
      ensures Valid() && stream == old(stream) + chunk
    {
      ScanTailPending("\n", "", stream);
      SplitIsScan("\n", buffer, chunk);
      ScanConcat("\n", "", stream, chunk);
      ghost var cut := Scan("\n", buffer, chunk);
      var lines := Split(buffer + chunk, "\n");
      buffer := lines[|lines| - 1];
      lines := lines[..|lines| - 1];
      assert lines == cut.parts;
      ghost var before := Taken(FromLine, Scan("\n", "", stream).parts);
      TakenConcat(FromLine, Scan("\n", "", stream).parts, lines);
      Consume(lines, before);
      stream := stream + chunk;
    }

    /** Reads a stream to its end and returns the last message. */
    method ReadAll(chunks: seq<string>) returns (final: Option<Message>)
      requires Valid()
      modifies this
      ensures Valid() && stream == old(stream) + Join(chunks) && final == last
    {
      assert stream == old(stream) + Join(chunks[..0]);
      for i := 0 to |chunks|
        invariant Valid() && stream == old(stream) + Join(chunks[..i])
      {
        JoinNext(chunks, i);
        AppendAssociates(old(stream), Join(chunks[..i]), chunks[i]);
        Read(chunks[i]);
      }
      assert chunks[..|chunks|] == chunks;
      final := last;
    }

    /** Hands the message of each data line to the callback; lines that do not parse are ignored. */
    method Consume(lines: seq<string>, ghost before: seq<string>)
      requires events == Messages(parse, before) && last == LastOf(events)
      modifies this`events, this`last
      ensures events == Messages(parse, before + Taken(FromLine, lines)) && last == LastOf(events)
    {
      assert before + Taken(FromLine, lines[..0]) == before;
      for i := 0 to |lines|
        invariant events == Messages(parse, before + Taken(FromLine, lines[..i])) && last == LastOf(events)
      {
        NextTaken(parse, FromLine, before, lines, i);
        if StartsWith(lines[i], "data:") {
          var payload := Trim(lines[i][5..]);
          OneMessage(parse, payload);
          match parse(payload) {
            case Some(m) =>
              last := Some(m);
              events := events + [m];
            case None =>
          }
        }
      }
      assert lines[..|lines|] == lines;
    }
  }

  function LastOf(ms: seq<Message>): Option<Message> {
    if ms == [] then None else Some(ms[|ms| - 1])
  }

  /** It is the newest message. */
  lemma LastIsNewest(ms: seq<Message>, m: Message)
    ensures LastOf([]) == None && LastOf(ms + [m]) == Some(m)
  {}

  lemma OneMessage(parse: Parse, payload: string)
    ensures Messages(parse, [payload]) == match parse(payload) case Some(m) => [m] case None => []
  {
    var one: seq<string> := [payload];
    assert one[..0] == [];
  }

  lemma NextTaken(parse: Parse, take: string -> seq<string>, before: seq<string>, parts: seq<string>, i: nat)
    requires i < |parts|
    ensures
      Messages(parse, before + Taken(take, parts[..i + 1]))
      == Messages(parse, before + Taken(take, parts[..i])) + Messages(parse, take(parts[i]))
  {
    assert parts[..i + 1] == parts[..i] + [parts[i]];
    TakenConcat(take, parts[..i], [parts[i]]);
    var one: seq<string> := [parts[i]];
    assert one[1..] == [];
    assert Taken(take, [parts[i]]) == take(parts[i]);
    MessagesConcat(parse, before + Taken(take, parts[..i]), take(parts[i]));
    AppendAssociates(before, Taken(take, parts[..i]), take(parts[i]));
  }

  /** The messages up to and including the first error, after which the import gives up. */
  function UpToError(ms: seq<Message>): seq<Message> {
    if ms == [] then [] else if ms[0].phase.Error? then [ms[0]] else [ms[0]] + UpToError(ms[1..])
  }

  predicate HasError(ms: seq<Message>) {
    exists m :: m in ms && m.phase.Error?
  }

  lemma {:induction false} UpToErrorConcat(a: seq<Message>, b: seq<Message>)
    ensures UpToError(a + b) == if HasError(a) then UpToError(a) else a + UpToError(b)
  {
    if a == [] {
      assert a + b == b;
    } else {
      assert a == [a[0]] + a[1..] && (a + b)[1..] == a[1..] + b;
      UpToErrorConcat(a[1..], b);
      if !a[0].phase.Error? {
        assert HasError(a) <==> HasError(a[1..]);
      }
    }
  }

  function LastDone(ms: seq<Message>): Option<Message> {
    if ms == [] then None
    else
      var n := |ms| - 1;
      if ms[n].phase.Done? then Some(ms[n]) else LastDone(ms[..n])
  }

  /** The block-buffered reader of the import: it stops at an error message and remembers the last "done". */
  class ImportReader {
    const parse: Parse
    var buf: string
    var events: seq<Message>
    var finalEvent: Option<Message>
    var failed: bool
    ghost var stream: string

    ghost predicate Valid()
      reads this
    {
      && Scan("\n\n", "", stream).tail == buf
      && events == UpToError(Messages(parse, BlockPayloads(stream)))
      && failed == HasError(events)
      && finalEvent == LastDone(events)
    }

    constructor (parse: Parse)
      ensures Valid() && stream == "" && this.parse == parse && !failed
    {
      this.parse, buf, events, finalEvent, failed, stream := parse, "", [], None, false, "";
    }

    method Read(chunk: string)
      requires Valid() && !failed
      modifies this
      ensures Valid() && stream == old(stream) + chunk
    {
      ScanTailPending("\n\n", "", stream);
      SplitIsScan("\n\n", buf, chunk);
      ScanConcat("\n\n", "", stream, chunk);
      ghost var before := Scan("\n\n", "", stream).parts;
      var parts := Split(buf + chunk, "\n\n");
      buf := parts[|parts| - 1];
      parts := parts[..|parts| - 1];
      TakenConcat(FromBlock, before, parts);
      NoErrorSeen(Messages(parse, BlockPayloads(stream)));
      Consume(parts, BlockPayloads(stream));
      stream := stream + chunk;
    }

    /** Reads a stream to its end, or up to the chunk that carries an error. */
    method ReadAll(chunks: seq<string>) returns (final: Option<Message>)
      requires Valid() && !failed
      modifies this
      ensures Valid() && final == finalEvent
      ensures !failed ==> stream == old(stream) + Join(chunks)
      ensures failed ==> exists n :: 0 <= n <= |chunks| && stream == old(stream) + Join(chunks[..n])
    {
      assert stream == old(stream) + Join(chunks[..0]);
      for i := 0 to |chunks|
        invariant Valid() && !failed && stream == old(stream) + Join(chunks[..i])
      {
        JoinNext(chunks, i);
        AppendAssociates(old(stream), Join(chunks[..i]), chunks[i]);
        Read(chunks[i]);
        if failed {
          return finalEvent;
        }
      }
      assert chunks[..|chunks|] == chunks;
      final := finalEvent;
    }

    /** Hands each block's message to the callback until one is an error. */
    method Consume(parts: seq<string>, ghost before: seq<string>)
      requires events == Messages(parse, before) && !HasError(events) && finalEvent == LastDone(events) && !failed
      modifies this`events, this`finalEvent, this`failed
      ensures events == UpToError(Messages(parse, before + Taken(FromBlock, parts)))
      ensures failed == HasError(events) && finalEvent == LastDone(events)
    {
      assert before + Taken(FromBlock, parts[..0]) == before;
      for i := 0 to |parts|
        invariant events == Messages(parse, before + Taken(FromBlock, parts[..i]))
        invariant !HasError(events) && finalEvent == LastDone(events) && !failed
      {
        NextTaken(parse, FromBlock, before, parts, i);
        ConsumeOne(parts[i]);
        if failed {
          StopHere(parse, before, parts, i, events);
          return;
        }
      }
      assert parts[..|parts|] == parts;
      UpToErrorConcat(events, []);
      assert events + [] == events;
    }

    method ConsumeOne(part: string)
      requires !HasError(events) && finalEvent == LastDone(events) && !failed
      modifies this`events, this`finalEvent, this`failed
      ensures events == old(events) + Messages(parse, FromBlock(part)) && finalEvent == LastDone(events)
      ensures failed == HasError(events)
      ensures failed ==> events[|events| - 1].phase.Error? && !HasError(events[..|events| - 1])
    {
      FromBlockIsOne(part);
      var line := FromBlock(part);
      if line == [] {
        assert events + [] == events;
        return;
      }
      OneMessage(parse, line[0]);
      assert line == [line[0]];
      match parse(line[0]) {
        case Some(m) => Deliver(m);
        case None => assert events + [] == events;
      }
    }

    /** Calls the callback; an error message is thrown after that. */
    method Deliver(m: Message)
      requires !HasError(events) && finalEvent == LastDone(events) && !failed
      modifies this`events, this`finalEvent, this`failed
      ensures events == old(events) + [m] && finalEvent == LastDone(events) && failed == HasError(events)
      ensures failed ==> events[|events| - 1].phase.Error? && !HasError(events[..|events| - 1])
    {
      AppendMessage(events, m);
      events := events + [m];
      if m.phase.Error? {
        failed := true;
      } else if m.phase.Done? {
        finalEvent := Some(m);
      }
    }
  }

  lemma AppendMessage(ms: seq<Message>, m: Message)
    ensures HasError(ms + [m]) <==> HasError(ms) || m.phase.Error?
    ensures LastDone(ms + [m]) == if m.phase.Done? then Some(m) else LastDone(ms)
    ensures (ms + [m])[..|ms|] == ms
  {
    if HasError(ms) {
      var e :| e in ms && e.phase.Error?;
      assert e in ms + [m];
    }
    assert m in ms + [m];
    assert (ms + [m])[..|ms|] == ms;
  }

  lemma NoErrorSeen(ms: seq<Message>)
    requires !HasError(UpToError(ms))
    ensures UpToError(ms) == ms
  {
    UpToErrorConcat(ms, []);
    assert ms + [] == ms;
    if HasError(ms) {
      ErrorKept(ms);
    }
  }

  lemma {:induction false} ErrorKept(ms: seq<Message>)
    requires HasError(ms)
    ensures HasError(UpToError(ms))
  {
    if ms[0].phase.Error? {
      assert ms[0] in UpToError(ms);
    } else {
      assert ms == [ms[0]] + ms[1..];
      ErrorKept(ms[1..]);
      var m :| m in UpToError(ms[1..]) && m.phase.Error?;
      assert m in UpToError(ms);
    }
  }

  lemma FromBlockIsOne(part: string)
    ensures |FromBlock(part)| <= 1
  {
    FirstDataIsOne(Split(part, "\n"));
  }

  lemma {:induction false} FirstDataIsOne(lines: seq<string>)
    ensures |FirstData(lines)| <= 1
  {
    if lines != [] {
      FirstDataIsOne(lines[1..]);
    }
  }

  /** What comes after the first error does not change the outcome. */
  lemma StopHere(parse: Parse, before: seq<string>, parts: seq<string>, i: nat, seen: seq<Message>)
    requires i < |parts| && seen != [] && seen == Messages(parse, before + Taken(FromBlock, parts[..i + 1]))
    requires !HasError(seen[..|seen| - 1]) && seen[|seen| - 1].phase.Error?
    ensures UpToError(Messages(parse, before + Taken(FromBlock, parts))) == seen
  {
    var first, rest := Taken(FromBlock, parts[..i + 1]), Taken(FromBlock, parts[i + 1..]);
    assert parts == parts[..i + 1] + parts[i + 1..];
    TakenConcat(FromBlock, parts[..i + 1], parts[i + 1..]);
    AppendAssociates(before, first, rest);
    MessagesConcat(parse, before + first, rest);
    ErrorAtEnd(seen, Messages(parse, rest));
  }

  lemma ErrorAtEnd(seen: seq<Message>, more: seq<Message>)
    requires seen != [] && !HasError(seen[..|seen| - 1]) && seen[|seen| - 1].phase.Error?
    ensures UpToError(seen + more) == seen
  {
    var n := |seen| - 1;
    UpToErrorConcat(seen, more);
    UpToErrorConcat(seen[..n], [seen[n]]);
    assert seen == seen[..n] + [seen[n]];
    assert seen[n] in seen;
  }

  // ---------- Both parsers on one printed stream ----------

  /** However what was written is cut into chunks: the callback has seen every message and nothing is left over. */
  lemma {:induction false} LineReaderSeesAll(w: SseWriter, r: LineReader)
    requires w.Valid() && AllOneLine(w.frames) && r.Valid() && r.stream == w.out
    ensures r.events == Messages(r.parse, TrimAll(Payloads(w.frames))) && r.buffer == ""
  {
    PrintedStreamParses(w.frames);
  }

  /** The same, untrimmed, up to the first error message. */
  lemma ImportReaderSeesAll(w: SseWriter, r: ImportReader)
    requires w.Valid() && AllOneLine(w.frames) && r.Valid() && r.stream == w.out
    ensures r.events == UpToError(Messages(r.parse, Payloads(w.frames))) && r.buf == ""
  {
    PrintedStreamParses(w.frames);
  }

  lemma {:induction false} TrimmedMessages(parse: Parse, ps: seq<string>)
    requires forall p :: p in ps ==> parse(Trim(p)) == parse(p)
    ensures Messages(parse, TrimAll(ps)) == Messages(parse, ps)
  {
    if ps != [] {
      var rest := ps[1..];
      TrimmedMessages(parse, rest);
      MessagesConcat(parse, [ps[0]], rest);
      MessagesConcat(parse, [Trim(ps[0])], TrimAll(rest));
      assert ps == [ps[0]] + rest;
      OneMessage(parse, ps[0]);
      OneMessage(parse, Trim(ps[0]));
    }
  }

  /**
   * Two readers fed what was written, in different chunks, agree unless it
   * carries an error, provided white space around a payload makes no
   * difference to its meaning.
   */
  lemma ReadersAgree(w: SseWriter, a: LineReader, b: ImportReader)
    requires w.Valid() && AllOneLine(w.frames)
    requires a.Valid() && b.Valid() && a.parse == b.parse && !b.failed && a.stream == b.stream == w.out
    requires forall p :: p in Payloads(w.frames) ==> a.parse(Trim(p)) == a.parse(p)
    ensures a.events == b.events == Messages(a.parse, Payloads(w.frames))
  {
    LineReaderSeesAll(w, a);
    ImportReaderSeesAll(w, b);
    TrimmedMessages(a.parse, Payloads(w.frames));
    NoErrorSeen(a.events);
  }
}
