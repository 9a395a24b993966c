/** Class inheritance: the slot layouts `compile_item` gives classes and methods, the walk
    that finds a method, and how `CallMethod` moves instance state in and out. Nothing in the
    compiler stops a cycle of base classes, so the walks carry a bound on their steps. */
module ClassLayout {
  import opened Names
  import opened Ir

  /** `class_bases` and `class_var_blocks`, both keyed by upper-case class name. */
  datatype Hierarchy = Hierarchy(bases: map<string, string>, vars: map<string, seq<VarSlot>>)

  // ---------------------------------------------------------------- walking up

  /** The class k steps above c, if there is one. */
  function Ancestor(h: Hierarchy, c: string, k: nat): Option<string>
    decreases k
  {
    if k == 0 then Some(c)
    else if c in h.bases then Ancestor(h, h.bases[c], k - 1)
    else None
  }

  /** The walk up from c has at most n classes. */
  predicate EndsIn(h: Hierarchy, c: string, n: nat) { Ancestor(h, c, n).None? }

  predicate Ends(h: Hierarchy, c: string) { EndsIn(h, c, |h.bases| + 1) }

  ghost predicate Repeats(h: Hierarchy, c: string) {
    exists i: nat, j: nat :: i < j && Ancestor(h, c, i).Some? && Ancestor(h, c, i) == Ancestor(h, c, j)
  }

  lemma {:induction false} AncestorAdds(h: Hierarchy, c: string, i: nat, k: nat)
    requires Ancestor(h, c, i).Some?
    ensures Ancestor(h, c, i + k) == Ancestor(h, Ancestor(h, c, i).value, k)
    decreases i
  {
    if i > 0 { AncestorAdds(h, h.bases[c], i - 1, k); }
  }

  lemma {:induction false} AncestorBelow(h: Hierarchy, c: string, i: nat, j: nat)
    requires i <= j && Ancestor(h, c, j).Some?
    ensures Ancestor(h, c, i).Some?
    decreases i
  {
    if i > 0 { AncestorBelow(h, h.bases[c], i - 1, j - 1); }
  }

  lemma {:induction false} RepeatGoesOn(h: Hierarchy, c: string, i: nat, j: nat, n: nat)
    requires i < j && Ancestor(h, c, i).Some? && Ancestor(h, c, i) == Ancestor(h, c, j)
    ensures Ancestor(h, c, n).Some?
    decreases n
  {
    if n <= j {
      AncestorBelow(h, c, n, j);
    } else {
      RepeatGoesOn(h, c, i, j, n - (j - i));
      AncestorAdds(h, c, i, n - j);
      AncestorAdds(h, c, j, n - j);
    }
  }

  lemma {:induction false} Pigeonhole<T>(s: seq<T>, all: set<T>) returns (i: nat, j: nat)
    requires |s| > |all| && forall k :: 0 <= k < |s| ==> s[k] in all
    ensures i < j < |s| && s[i] == s[j]
    decreases s
  {
    if s[0] in s[1..] {
      i := 0;
      j :| 1 <= j < |s| && s[j] == s[0];
    } else {
      var a, b := Pigeonhole(s[1..], all - {s[0]});
      i, j := a + 1, b + 1;
    }
  }

  lemma LongWalkRepeats(h: Hierarchy, c: string)
    requires !Ends(h, c)
    ensures Repeats(h, c)
  {
    var n := |h.bases| + 1;
    forall k: nat | k < n ensures Ancestor(h, c, k).Some? && Ancestor(h, c, k).value in h.bases.Keys {
      AncestorBelow(h, c, k, n);
      AncestorBelow(h, c, k + 1, n);
      AncestorAdds(h, c, k, 1);
    }
    var seen := seq(n, k requires 0 <= k < n => Ancestor(h, c, k).value);
    assert |h.bases.Keys| == |h.bases|;
    var i, j := Pigeonhole(seen, h.bases.Keys);
    assert Ancestor(h, c, i) == Ancestor(h, c, j);
  }

  /** The walk from c ends if and only if no class above c comes up twice, and then within as
      many steps as there are classes with a base. */
  lemma EndsIffNoRepeat(h: Hierarchy, c: string)
    ensures Ends(h, c) <==> !Repeats(h, c)
    ensures Ends(h, c) <==> exists n: nat :: EndsIn(h, c, n)
  {
    if Repeats(h, c) {
      var i: nat, j: nat :| i < j && Ancestor(h, c, i).Some? && Ancestor(h, c, i) == Ancestor(h, c, j);
      forall k: nat ensures !EndsIn(h, c, k) { RepeatGoesOn(h, c, i, j, k); }
    } else if !Ends(h, c) {
      LongWalkRepeats(h, c);
    }
  }

  /** A EXTENDS B, B EXTENDS A: both walks go round for ever. */
  lemma CycleNeverEnds(vars: map<string, seq<VarSlot>>)
    ensures var h := Hierarchy(map["A" := "B", "B" := "A"], vars); !Ends(h, "A") && !Ends(h, "B")
  {
    var h := Hierarchy(map["A" := "B", "B" := "A"], vars);
    assert Ancestor(h, "A", 2) == Some("A") && Ancestor(h, "B", 2) == Some("B");
    assert Repeats(h, "A") by { assert Ancestor(h, "A", 0) == Ancestor(h, "A", 2); }
    assert Repeats(h, "B") by { assert Ancestor(h, "B", 0) == Ancestor(h, "B", 2); }
    EndsIffNoRepeat(h, "A");
    EndsIffNoRepeat(h, "B");
  }

  /** The number of classes from c up. */
  function Depth(h: Hierarchy, c: string, n: nat): nat
    requires EndsIn(h, c, n)
    decreases n
  {
    if c in h.bases then 1 + Depth(h, h.bases[c], n - 1) else 1
  }

  lemma {:induction false} DepthSame(h: Hierarchy, c: string, n: nat, k: nat)
    requires EndsIn(h, c, n) && EndsIn(h, c, k)
    ensures Depth(h, c, n) == Depth(h, c, k)
    decreases n
  {
    if c in h.bases { DepthSame(h, h.bases[c], n - 1, k - 1); }
  }

  function Height(h: Hierarchy, c: string): nat
    requires Ends(h, c)
  {
    Depth(h, c, |h.bases| + 1)
  }

  lemma Up(h: Hierarchy, c: string)
    requires c in h.bases
    ensures Ends(h, c) <==> Ends(h, h.bases[c])
    ensures Ends(h, c) ==> Height(h, h.bases[c]) == Height(h, c) - 1
  {
    var n := |h.bases| + 1;
    EndsIffNoRepeat(h, c);
    EndsIffNoRepeat(h, h.bases[c]);
    assert EndsIn(h, c, n + 1) <==> EndsIn(h, h.bases[c], n);
    if EndsIn(h, h.bases[c], n) {
      assert EndsIn(h, c, n + 1);
      DepthSame(h, c, n, n + 1);
    } else if Ends(h, c) {
      assert EndsIn(h, h.bases[c], n - 1);
    }
  }

  // ---------------------------------------------------------------- fields

  function Own(h: Hierarchy, c: string): seq<VarSlot> {
    if c in h.vars then h.vars[c] else []
  }

  /** The fields of a class: those of its base, then its own. */
  ghost function Fields(h: Hierarchy, c: string): seq<VarSlot>
    requires Ends(h, c)
    decreases Height(h, c)
  {
    (if c in h.bases then Up(h, c); Fields(h, h.bases[c]) else []) + Own(h, c)
  }

  ghost function Inherited(h: Hierarchy, c: string): seq<VarSlot>
    requires Ends(h, c)
  {
    if c in h.bases then Up(h, c); Fields(h, h.bases[c]) else []
  }

  function Flatten(blocks: seq<seq<VarSlot>>): seq<VarSlot> {
    if blocks == [] then [] else blocks[0] + Flatten(blocks[1..])
  }

  function Reversed<T>(s: seq<T>): (r: seq<T>)
    ensures |r| == |s| && forall i :: 0 <= i < |s| ==> r[i] == s[|s| - 1 - i]
  {
    seq(|s|, i requires 0 <= i < |s| => s[|s| - 1 - i])
  }

  lemma ReversedPush(chain: seq<seq<VarSlot>>, b: seq<VarSlot>)
    ensures Flatten(Reversed(chain + [b])) == b + Flatten(Reversed(chain))
  {
    assert Reversed(chain + [b]) == [b] + Reversed(chain);
  }

  lemma FieldsUp(h: Hierarchy, c: string, chain: seq<seq<VarSlot>>)
    requires Ends(h, c)
    ensures Fields(h, c) + Flatten(Reversed(chain)) ==
      Inherited(h, c) + Flatten(Reversed(if c in h.vars then chain + [h.vars[c]] else chain))
  {
    if c in h.vars { ReversedPush(chain, h.vars[c]); }
  }

  /** `collect_inherited_var_blocks`: walk up, reverse, flatten; `None` when the walk is not
      over after that many classes. */
  method CollectInherited(h: Hierarchy, className: string, steps: nat) returns (fields: Option<seq<VarSlot>>)
    ensures fields.Some? <==> EndsIn(h, Key(className), steps + 1)
    ensures fields.Some? ==> Ends(h, Key(className)) && fields.value == Inherited(h, Key(className))
  {
    ghost var start := Key(className);
    EndsIffNoRepeat(h, start);
    var chain: seq<seq<VarSlot>> := [];
    var current := if Key(className) in h.bases then Some(h.bases[Key(className)]) else None;
    if current.Some? { Up(h, start); }
    var left := steps;
    while current.Some? && left > 0
      invariant EndsIn(h, start, steps + 1) <==> current.None? || EndsIn(h, current.value, left)
      invariant Ends(h, start) && current.Some? ==> Ends(h, current.value)
      invariant Ends(h, start) ==>
        Inherited(h, start) == (if current.Some? then Fields(h, current.value) else []) + Flatten(Reversed(chain))
    {
      var parent := current.value;
      if Ends(h, parent) { FieldsUp(h, parent, chain); }
      if parent in h.bases { Up(h, parent); }
      if parent in h.vars { chain := chain + [h.vars[parent]]; }
      current := if parent in h.bases then Some(h.bases[parent]) else None;
      left := left - 1;
    }
    if current.Some? { return None; }
    fields := Some(Flatten(Reversed(chain)));
  }

  /** The fields of every ancestor are a prefix of the fields of the class. */
  lemma {:induction false} AncestorPrefix(h: Hierarchy, c: string, k: nat)
    requires Ends(h, c) && Ancestor(h, c, k).Some?
    ensures Ends(h, Ancestor(h, c, k).value)
    ensures Fields(h, Ancestor(h, c, k).value) <= Fields(h, c)
    decreases k
  {
    if k > 0 {
      Up(h, c);
      AncestorPrefix(h, h.bases[c], k - 1);
    }
  }

  // ---------------------------------------------------------------- compiled classes

  /** An entry of the function table: a class, or a method with the slots of its own
      parameters, variables and result. */
  datatype Entry = ClassEntry(cls: string) | MethodEntry(cls: string, operation: string, own: seq<VarSlot>)
  {
    function Name(): string { if ClassEntry? then cls else cls + "." + operation }
  }

  /** The frame layout of an entry. */
  ghost function SlotsOf(h: Hierarchy, e: Entry): seq<VarSlot>
    requires Ends(h, Key(e.cls))
  {
    Fields(h, Key(e.cls)) + if e.MethodEntry? then e.own else []
  }

  /** `compile_item` for a class or method: inherited fields, own fields, own variables. */
  method LayoutOf(h: Hierarchy, e: Entry, steps: nat) returns (slots: Option<seq<VarSlot>>)
    ensures slots.Some? <==> EndsIn(h, Key(e.cls), steps + 1)
    ensures slots.Some? ==> Ends(h, Key(e.cls)) && slots.value == SlotsOf(h, e)
  {
    var inherited := CollectInherited(h, e.cls, steps);
    if inherited.None? { return None; }
    var all := inherited.value;
    if Key(e.cls) in h.vars { all := all + h.vars[Key(e.cls)]; }
    if e.MethodEntry? { all := all + e.own; }
    slots := Some(all);
  }

  function EntryNames(table: seq<Entry>): (r: seq<string>)
    ensures |r| == |table|
    ensures forall i :: 0 <= i < |table| ==> r[i] == table[i].Name()
  {
    seq(|table|, i requires 0 <= i < |table| => table[i].Name())
  }

  /** `Module::find_function`. */
  function FindFunction(table: seq<Entry>, name: string): (r: Option<nat>)
    ensures r.Some? ==> r.value < |table| && SameName(table[r.value].Name(), name)
    ensures r.None? ==> forall i :: 0 <= i < |table| ==> !SameName(table[i].Name(), name)
  {
    var names := EntryNames(table);
    assert forall i :: 0 <= i < |table| ==> names[i] == table[i].Name();
    FindKey(names, Key(name))
  }

  /** The search for a method in c and above: `None` when it is not over after n classes. */
  function Search(h: Hierarchy, table: seq<Entry>, c: string, m: string, n: nat): Option<Option<nat>>
    decreases n
  {
    if n == 0 then None
    else
      var i := FindFunction(table, c + "." + m);
      if i.Some? then Some(i)
      else if c in h.bases then Search(h, table, h.bases[c], m, n - 1)
      else Some(None)
  }

  lemma KeyConcat(a: string, b: string)
    ensures Key(a + b) == Key(a) + Key(b)
  {
  }

  lemma KeyTwice(a: string)
    ensures Key(Key(a)) == Key(a)
  {
  }

  /** The base names stored in the hierarchy are upper case. */
  ghost predicate Keyed(h: Hierarchy) {
    forall c :: c in h.bases ==> Key(h.bases[c]) == h.bases[c]
  }

  /** `find_method_in_hierarchy`. */
  method FindMethodInHierarchy(h: Hierarchy, table: seq<Entry>, className: string, m: string, steps: nat)
    returns (r: Option<Option<nat>>)
    requires Keyed(h)
    ensures r == Search(h, table, Key(className), m, steps)
  {
    var current := className;
    var left := steps;
    while left > 0
      invariant Search(h, table, Key(className), m, steps) == Search(h, table, Key(current), m, left)
    {
      KeyConcat(current, "." + m);
      KeyConcat(Key(current), "." + m);
      KeyTwice(current);
      assert current + ("." + m) == current + "." + m && Key(current) + ("." + m) == Key(current) + "." + m;
      var i := FindFunction(table, current + "." + m);
      if i.Some? { return Some(i); }
      if Key(current) !in h.bases { return Some(None); }
      current := h.bases[Key(current)];
      left := left - 1;
    }
    r := None;
  }

  /** A class k steps above c has the method. */
  ghost predicate HasAbove(h: Hierarchy, table: seq<Entry>, c: string, m: string, k: nat) {
    Ancestor(h, c, k).Some? && FindFunction(table, Ancestor(h, c, k).value + "." + m).Some?
  }

  lemma {:induction false} SearchBound(h: Hierarchy, table: seq<Entry>, c: string, m: string, n: nat)
    ensures Search(h, table, c, m, n).Some? <==> EndsIn(h, c, n) || exists k: nat :: k < n && HasAbove(h, table, c, m, k)
    decreases n
  {
    if n > 0 {
      if FindFunction(table, c + "." + m).Some? {
        assert HasAbove(h, table, c, m, 0);
      } else if c in h.bases {
        SearchBound(h, table, h.bases[c], m, n - 1);
        forall k: nat ensures HasAbove(h, table, h.bases[c], m, k) <==> HasAbove(h, table, c, m, k + 1) { }
        if k: nat :| k < n && HasAbove(h, table, c, m, k) {
          assert k > 0 && HasAbove(h, table, h.bases[c], m, k - 1);
        }
      }
    }
  }

  /** The search ends if and only if the walk does or a class on the way has the method, so on
      a cycle exactly when some class of the cycle or below it has one. */
  lemma SearchEndsIff(h: Hierarchy, table: seq<Entry>, c: string, m: string)
    ensures (exists n: nat :: Search(h, table, c, m, n).Some?) <==>
            Ends(h, c) || exists k: nat :: HasAbove(h, table, c, m, k)
  {
    EndsIffNoRepeat(h, c);
    if n: nat :| Search(h, table, c, m, n).Some? { SearchBound(h, table, c, m, n); }
    if Ends(h, c) { SearchBound(h, table, c, m, |h.bases| + 1); }
    if k: nat :| HasAbove(h, table, c, m, k) { SearchBound(h, table, c, m, k + 1); }
  }

  // ---------------------------------------------------------------- inherited methods

  predicate DotFree(s: string) { '.' !in s }

  /** Class names contain no dot. */
  ghost predicate PlainNames(h: Hierarchy, table: seq<Entry>) {
    && (forall c :: c in h.bases ==> DotFree(h.bases[c]))
    && (forall i :: 0 <= i < |table| ==> DotFree(Key(table[i].cls)))
  }

  lemma DotInside(a: string, b: string, x: string, y: string)
    requires a + "." + b == x + "." + y && |a| < |x|
    ensures !DotFree(x)
  {
    assert (a + "." + b)[|a|] == '.';
    assert (x + "." + y)[|a|] == x[|a|];
  }

  lemma DottedName(s: string, c: string, m: string)
    requires s == c + "." + m
    ensures !DotFree(s)
  {
    assert s[|c|] == '.';
  }

  lemma SplitAtDot(a: string, b: string, x: string, y: string)
    requires DotFree(a) && DotFree(x) && a + "." + b == x + "." + y
    ensures a == x && b == y
  {
    if |a| < |x| {
      DotInside(a, b, x, y);
    } else if |x| < |a| {
      DotInside(x, y, a, b);
    } else {
      var s := a + "." + b;
      assert a == s[..|a|] && x == s[..|x|];
      assert b == s[|a| + 1..] && y == s[|x| + 1..];
    }
  }

  /** A name of the form class.method names an entry of that very class. */
  lemma NamesMethodOf(e: Entry, c: string, m: string)
    requires SameName(e.Name(), c + "." + m) && Key(c) == c && DotFree(c) && DotFree(Key(e.cls))
    ensures e.MethodEntry? && Key(e.cls) == c && Key(e.operation) == Key(m)
  {
    var dot := ".";
    assert Key(dot) == dot;
    KeyConcat(c, dot); KeyConcat(c + dot, m);
    if e.MethodEntry? {
      KeyConcat(e.cls, dot); KeyConcat(e.cls + dot, e.operation);
      SplitAtDot(Key(e.cls), Key(e.operation), c, Key(m));
    } else {
      DottedName(Key(e.cls), c, Key(m));
    }
  }

  /** The method found for a class D belongs to the class k steps above D, and no class nearer
      to D has one. */
  lemma {:induction false} NothingNearer(h: Hierarchy, table: seq<Entry>, d: string, m: string, n: nat, i: nat) returns (k: nat)
    requires Keyed(h) && PlainNames(h, table) && Key(d) == d && DotFree(d)
    requires Search(h, table, d, m, n) == Some(Some(i))
    ensures i < |table| && table[i].MethodEntry? && Key(table[i].operation) == Key(m)
    ensures k < n && Ancestor(h, d, k) == Some(Key(table[i].cls))
    ensures forall j: nat :: j < k ==> !HasAbove(h, table, d, m, j)
    decreases n
  {
    if FindFunction(table, d + "." + m).Some? {
      NamesMethodOf(table[i], d, m);
      k := 0;
    } else {
      var above := NothingNearer(h, table, h.bases[d], m, n - 1, i);
      k := above + 1;
      forall j: nat | j < k ensures !HasAbove(h, table, d, m, j) {
        if j > 0 { assert HasAbove(h, table, d, m, j) == HasAbove(h, table, h.bases[d], m, j - 1); }
      }
    }
  }

  /** None is found only if no class above D has one. */
  lemma {:induction false} NoneAbove(h: Hierarchy, table: seq<Entry>, d: string, m: string, n: nat)
    requires Search(h, table, d, m, n) == Some(None)
    ensures Ends(h, d)
    ensures forall k: nat :: !HasAbove(h, table, d, m, k)
    decreases n
  {
    EndsIffNoRepeat(h, d);
    if d in h.bases {
      NoneAbove(h, table, h.bases[d], m, n - 1);
      Up(h, d);
    } else {
      assert EndsIn(h, d, 1);
    }
    forall k: nat ensures !HasAbove(h, table, d, m, k) {
      if k > 0 && d in h.bases { assert HasAbove(h, table, d, m, k) == HasAbove(h, table, h.bases[d], m, k - 1); }
    }
  }

  /** Inheritance theorem: in every class D, the slots that the inherited method uses for the
      fields of its defining class A are the slots those fields have in an instance of D,
      and in the frame of the method itself. */
  lemma InheritedMethodSlots(h: Hierarchy, table: seq<Entry>, d: string, m: string, n: nat, i: nat)
    requires Ends(h, d) && Keyed(h) && PlainNames(h, table) && Key(d) == d && DotFree(d)
    requires Search(h, table, d, m, n) == Some(Some(i))
    ensures i < |table| && Ends(h, Key(table[i].cls))
    ensures var fields := Fields(h, Key(table[i].cls));
            fields <= SlotsOf(h, table[i]) && fields <= Fields(h, d)
  {
    var k := NothingNearer(h, table, d, m, n, i);
    AncestorPrefix(h, d, k);
  }

  // ---------------------------------------------------------------- calling a method

  /** `find_method_class_var_count`: the class part of the method's name, looked up. */
  ghost function ClassVarCount(h: Hierarchy, table: seq<Entry>, e: Entry): Option<nat> {
    var i := FindFunction(table, e.cls);
    if i.Some? && Ends(h, Key(table[i.value].cls)) then Some(|SlotsOf(h, table[i.value])|) else None
  }

  function Min(a: nat, b: nat): nat { if a < b then a else b }

  /** Method frame on entry: the class's part of the instance state over the defaults. */
  function Enter(saved: seq<Value>, defaults: seq<Value>, count: nat): seq<Value> {
    var n := Min(Min(count, |saved|), |defaults|);
    saved[..n] + defaults[n..]
  }

  /** Instance state on return: only the class's part is written back. */
  function Leave(saved: seq<Value>, locals: seq<Value>, count: nat): seq<Value> {
    var n := Min(Min(count, |saved|), |locals|);
    locals[..n] + saved[n..]
  }

  lemma CountIsFields(h: Hierarchy, table: seq<Entry>, e: Entry)
    requires Ends(h, Key(e.cls)) && PlainNames(h, table) && DotFree(Key(e.cls))
    requires ClassEntry(e.cls) in table
    ensures ClassVarCount(h, table, e) == Some(|Fields(h, Key(e.cls))|)
  {
    var dot := ".";
    assert Key(dot) == dot;
    var k :| 0 <= k < |table| && table[k] == ClassEntry(e.cls);
    assert SameName(table[k].Name(), e.cls);
    var i := FindFunction(table, e.cls).value;
    if table[i].MethodEntry? {
      var f := table[i];
      KeyConcat(f.cls, "."); KeyConcat(f.cls + ".", f.operation);
      DottedName(Key(e.cls), Key(f.cls), Key(f.operation));
    }
  }

  lemma PrefixSlices<T>(a: seq<T>, b: seq<T>)
    requires a <= b
    ensures |a| <= |b| && b[..|a|] == a
  {
  }

  lemma EnterLeave(saved: seq<Value>, defaults: seq<Value>, locals: seq<Value>, count: nat)
    requires count <= |saved| && count <= |defaults| == |locals|
    ensures |Enter(saved, defaults, count)| == |defaults| && |Leave(saved, locals, count)| == |saved|
    ensures forall k :: 0 <= k < count ==>
              Enter(saved, defaults, count)[k] == saved[k] && Leave(saved, locals, count)[k] == locals[k]
    ensures forall k :: count <= k < |saved| ==> Leave(saved, locals, count)[k] == saved[k]
  {
  }

  /** A call of an inherited method on an instance of D sees every field of its class A in
      its own slot, changes those fields only, and leaves the fields that D and the classes
      between add as they were. */
  lemma CallKeepsOtherFields(h: Hierarchy, table: seq<Entry>, d: string, m: string, n: nat, i: nat,
                             saved: seq<Value>, defaults: seq<Value>, locals: seq<Value>)
    requires Ends(h, d) && Keyed(h) && PlainNames(h, table) && Key(d) == d && DotFree(d)
    requires Search(h, table, d, m, n) == Some(Some(i)) && i < |table| && Ends(h, Key(table[i].cls)) && ClassEntry(table[i].cls) in table
    requires |saved| == |Fields(h, d)|
    requires |defaults| == |SlotsOf(h, table[i])| == |locals|
    ensures var count := |Fields(h, Key(table[i].cls))|;
            && ClassVarCount(h, table, table[i]) == Some(count)
            && count <= |saved| && count <= |locals|
            && |Enter(saved, defaults, count)| == |defaults|
            && |Leave(saved, locals, count)| == |saved|
            && (forall k :: 0 <= k < count ==>
                  Enter(saved, defaults, count)[k] == saved[k] && Leave(saved, locals, count)[k] == locals[k])
            && SlotsOf(h, table[i])[..count] == Fields(h, d)[..count]
            && (forall k :: count <= k < |saved| ==> Leave(saved, locals, count)[k] == saved[k])
  {
    InheritedMethodSlots(h, table, d, m, n, i);
    CountIsFields(h, table, table[i]);
    var fields := Fields(h, Key(table[i].cls));
    PrefixSlices(fields, SlotsOf(h, table[i]));
    PrefixSlices(fields, Fields(h, d));
    EnterLeave(saved, defaults, locals, |fields|);
  }
}
