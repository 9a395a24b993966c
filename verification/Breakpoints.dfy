/** Breakpoint lines: from a line to a byte offset and back (`st-engine/src/debug.rs:111-161,
    449-457`, `st-dap/src/server.rs:2876-2885`). */
module Breakpoints {
  import opened Names

  const NEWLINE: char := '\n'

  /** Line breaks in the first n bytes. */
  function Breaks(source: string, n: nat): nat
    requires n <= |source|
  {
    if n == 0 then 0 else Breaks(source, n - 1) + (if source[n - 1] == NEWLINE then 1 else 0)
  }

  lemma {:induction false} TwoLines(source: string, n: nat)
    requires n <= |source| && forall k :: 0 <= k < n ==> source[k] != '\n'
    ensures Breaks(source, n) == 0 && (n < |source| && source[n] == '\n' ==> Breaks(source, n + 1) == 1)
    decreases n
  {
    if n > 0 { TwoLines(source, n - 1); }
  }

  /** Where each line starts: 0 and the position after every line break, in order. */
  ghost predicate LineStarts(source: string, offsets: seq<nat>, upTo: nat)
    requires upTo <= |source|
  {
    && |offsets| == Breaks(source, upTo) + 1
    && (forall k :: 0 <= k < |offsets| ==> offsets[k] <= upTo && Breaks(source, offsets[k]) == k)
    && offsets[0] == 0
    && (forall k :: 0 < k < |offsets| ==> offsets[k] > 0 && source[offsets[k] - 1] == NEWLINE)
  }

  method ComputeLineOffsets(source: string) returns (offsets: seq<nat>)
    ensures LineStarts(source, offsets, |source|)
  {
    offsets := [0];
    for i := 0 to |source|
      invariant LineStarts(source, offsets, i)
    {
      if source[i] == NEWLINE { offsets := offsets + [i + 1]; }
    }
  }

  function Min(a: nat, b: nat): nat { if a < b then a else b }

  /** The counting loop of the debug server, line and column from 1. */
  method ByteOffsetToLineCol(source: string, offset: nat) returns (line: nat, col: nat)
    ensures line == Breaks(source, Min(offset, |source|)) + 1
    ensures 1 <= col <= Min(offset, |source|) + 1
    ensures var from := Min(offset, |source|) - (col - 1);
      (from == 0 || source[from - 1] == NEWLINE) && Breaks(source, from) == line - 1
  {
    var stop := Min(offset, |source|);
    line, col := 1, 1;
    for i := 0 to stop
      invariant line == Breaks(source, i) + 1 && 1 <= col <= i + 1
      invariant (i - (col - 1) == 0 || source[i - (col - 1) - 1] == NEWLINE) && Breaks(source, i - (col - 1)) == line - 1
    {
      if source[i] == NEWLINE { line, col := line + 1, 1; } else { col := col + 1; }
    }
  }

  lemma {:induction false} BreaksGrow(source: string, i: nat, j: nat)
    requires i <= j <= |source|
    ensures Breaks(source, i) <= Breaks(source, j)
    decreases j
  {
    if i < j { BreaksGrow(source, i, j - 1); }
  }

  /** The bytes from the start of line k up to the start of line k + 1, or the end of the
      source, are exactly those with k line breaks before them. */
  lemma LineOf(source: string, offsets: seq<nat>, k: nat, b: nat)
    requires LineStarts(source, offsets, |source|) && b < |source|
    ensures k < |offsets| && offsets[k] <= b < LineEnd(source, offsets, k) <==> Breaks(source, b) == k
  {
    BreaksGrow(source, b, |source|);
    if k < |offsets| {
      if b < offsets[k] {
        BreaksGrow(source, b, offsets[k] - 1);
        assert Breaks(source, offsets[k]) == Breaks(source, offsets[k] - 1) + 1;
      } else {
        BreaksGrow(source, offsets[k], b);
        if k + 1 < |offsets| { NextLine(source, offsets, k, b); }
      }
    }
  }

  lemma NextLine(source: string, offsets: seq<nat>, k: nat, b: nat)
    requires LineStarts(source, offsets, |source|) && k + 1 < |offsets| && b < |source|
    ensures b < offsets[k + 1] ==> Breaks(source, b) <= k
    ensures b >= offsets[k + 1] ==> Breaks(source, b) >= k + 1
  {
    assert Breaks(source, offsets[k + 1]) == Breaks(source, offsets[k + 1] - 1) + 1;
    if b < offsets[k + 1] { BreaksGrow(source, b, offsets[k + 1] - 1); } else { BreaksGrow(source, offsets[k + 1], b); }
  }

  function LineEnd(source: string, offsets: seq<nat>, k: nat): nat
    requires k < |offsets|
  {
    if k + 1 < |offsets| then offsets[k + 1] else |source|
  }

  /** A function's source map holds offsets in the virtual concatenation of all files. */
  datatype Function = Function(name: string, offsets: seq<nat>)

  function FirstIn(offsets: seq<nat>, from: nat, to: nat): (r: Option<nat>)
    ensures r.Some? ==> r.value in offsets && from <= r.value < to && r.value > 0
    ensures r.None? ==> forall b :: b in offsets && b > 0 ==> !(from <= b < to)
  {
    if offsets == [] then None
    else if from <= offsets[0] < to && offsets[0] > 0 then Some(offsets[0])
    else
      assert forall b :: b in offsets ==> b == offsets[0] || b in offsets[1..];
      FirstIn(offsets[1..], from, to)
  }

  predicate Belongs(f: Function, names: seq<string>) { exists i :: 0 <= i < |names| && SameName(names[i], f.name) }

  /** The first mapped statement of the file's functions in the byte range. */
  function Place(functions: seq<Function>, names: seq<string>, from: nat, to: nat): (r: Option<nat>)
    ensures r.Some? ==> from <= r.value < to && r.value > 0
    ensures r.Some? ==> exists f :: f in functions && Belongs(f, names) && r.value in f.offsets
    ensures r.None? ==> forall f, b :: f in functions && Belongs(f, names) && b in f.offsets && b > 0 ==> !(from <= b < to)
  {
    if functions == [] then None
    else
      var r := if Belongs(functions[0], names) then FirstIn(functions[0].offsets, from, to) else None;
      if r.Some? then r else Place(functions[1..], names, from, to)
  }

  /** Line 0 is treated as line 1. */
  function Index(line: nat): nat { if line == 0 then 0 else line - 1 }

  /** The statement at virtual offset b lies on the given line of the file. */
  predicate OnLine(source: string, sourceOffset: nat, b: nat, line: nat) {
    sourceOffset <= b && b - sourceOffset < |source| && Breaks(source, b - sourceOffset) == Index(line)
  }

  /** A breakpoint sits on a mapped statement of the requested line, and a line gets none only
      if no function of the file has a statement on it (offset 0 never counts). */
  ghost predicate Placed(functions: seq<Function>, names: seq<string>, source: string, sourceOffset: nat, line: nat, r: Option<nat>) {
    if r.Some? then
      OnLine(source, sourceOffset, r.value, line) && exists f :: f in functions && Belongs(f, names) && r.value in f.offsets
    else
      forall f, b :: f in functions && Belongs(f, names) && b in f.offsets && b > 0 ==> !OnLine(source, sourceOffset, b, line)
  }

  lemma PlaceIsPlaced(functions: seq<Function>, names: seq<string>, source: string, offsets: seq<nat>, sourceOffset: nat, line: nat)
    requires LineStarts(source, offsets, |source|)
    ensures var k := Index(line);
      Placed(functions, names, source, sourceOffset, line,
             if k >= |offsets| then None else Place(functions, names, offsets[k] + sourceOffset, LineEnd(source, offsets, k) + sourceOffset))
  {
    forall b | sourceOffset <= b < sourceOffset + |source|
      ensures OnLine(source, sourceOffset, b, line) <==>
        Index(line) < |offsets| && offsets[Index(line)] <= b - sourceOffset < LineEnd(source, offsets, Index(line))
    {
      LineOf(source, offsets, Index(line), b - sourceOffset);
    }
  }

  method PlaceLine(functions: seq<Function>, names: seq<string>, source: string, offsets: seq<nat>, line: nat, sourceOffset: nat)
    returns (r: Option<nat>)
    requires LineStarts(source, offsets, |source|)
    ensures Placed(functions, names, source, sourceOffset, line, r)
  {
    var idx := if line == 0 then 0 else line - 1;
    PlaceIsPlaced(functions, names, source, offsets, sourceOffset, line);
    if idx >= |offsets| { return None; }
    r := Place(functions, names, offsets[idx] + sourceOffset, LineEnd(source, offsets, idx) + sourceOffset);
  }

  class DebugState {
    var sourceBreakpoints: set<nat>

    constructor ()
      ensures sourceBreakpoints == {}
    {
      sourceBreakpoints := {};
    }

    /** One entry per requested line: the offset the breakpoint was set at, if any. */
    method SetLineBreakpoints(functions: seq<Function>, names: seq<string>, source: string, lines: seq<nat>, sourceOffset: nat)
      returns (placed: seq<Option<nat>>)
      modifies this
      ensures |placed| == |lines|
      ensures forall k :: 0 <= k < |lines| ==> Placed(functions, names, source, sourceOffset, lines[k], placed[k])
      ensures sourceBreakpoints == old(sourceBreakpoints) + set k | 0 <= k < |lines| && placed[k].Some? :: placed[k].value
    {
      var offsets := ComputeLineOffsets(source);
      placed := [];
      for i := 0 to |lines|
        invariant |placed| == i
        invariant forall k :: 0 <= k < i ==> Placed(functions, names, source, sourceOffset, lines[k], placed[k])
        invariant sourceBreakpoints == old(sourceBreakpoints) + set k | 0 <= k < i && placed[k].Some? :: placed[k].value
      {
        var r := PlaceLine(functions, names, source, offsets, lines[i], sourceOffset);
        if r.Some? { sourceBreakpoints := sourceBreakpoints + {r.value}; }
        placed := placed + [r];
      }
    }
  }

  /** The editor's line comes back: for every line from 1 on, the server turns the offset of
      the placed breakpoint into that line again. */
  method RoundTrip(d: DebugState, functions: seq<Function>, names: seq<string>, source: string, line: nat, sourceOffset: nat)
    returns (back: Option<nat>)
    requires line >= 1
    modifies d
    ensures back.Some? ==> back.value == line
  {
    var placed := d.SetLineBreakpoints(functions, names, source, [line], sourceOffset);
    if placed[0].None? { return None; }
    var l, _ := ByteOffsetToLineCol(source, placed[0].value - sourceOffset);
    back := Some(l);
  }
}
