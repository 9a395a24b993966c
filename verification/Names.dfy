/** Identifiers. The compiler and the engine compare names with
    `eq_ignore_ascii_case`; the model compares ASCII upper-case keys. */
module Names {

  datatype Option<+T> = None | Some(value: T)

  function UpperChar(c: char): char {
    if 'a' <= c <= 'z' then ((c as int) - 32) as char else c
  }

  /** The key under which a name is looked up. */
  function Key(name: string): string {
    seq(|name|, i requires 0 <= i < |name| => UpperChar(name[i]))
  }

  predicate SameName(a: string, b: string) {
    Key(a) == Key(b)
  }

  /** A letter and the same letter in the other case, from A to Z. */
  predicate OtherCase(c: char, d: char) {
    ('A' <= c <= 'Z' && d as int == c as int + 32) || ('A' <= d <= 'Z' && c as int == d as int + 32)
  }

  /** Names are the same if they are equal up to the case of the 26 letters. */
  lemma SameNameIff(a: string, b: string)
    ensures SameName(a, b) <==> |a| == |b| && forall i :: 0 <= i < |a| ==> a[i] == b[i] || OtherCase(a[i], b[i])
  {
    if SameName(a, b) {
      forall i | 0 <= i < |a| ensures a[i] == b[i] || OtherCase(a[i], b[i]) { SameUpper(a[i], b[i]); assert Key(a)[i] == Key(b)[i]; }
    }
    if |a| == |b| && forall i :: 0 <= i < |a| ==> a[i] == b[i] || OtherCase(a[i], b[i]) {
      forall i | 0 <= i < |a| ensures Key(a)[i] == Key(b)[i] { SameUpper(a[i], b[i]); }
      assert Key(a) == Key(b);
    }
  }

  lemma SameUpper(c: char, d: char)
    ensures UpperChar(c) == UpperChar(d) <==> c == d || OtherCase(c, d)
  {
  }

  /** Index of the first name in `names` with the given key. */
  function FindKey(names: seq<string>, key: string): (r: Option<nat>)
    ensures r.Some? ==> r.value < |names| && Key(names[r.value]) == key
    ensures r.Some? ==> forall j :: 0 <= j < r.value ==> Key(names[j]) != key
    ensures r.None? ==> forall j :: 0 <= j < |names| ==> Key(names[j]) != key
  {
    if names == [] then None
    else if Key(names[0]) == key then Some(0)
    else
      match FindKey(names[1..], key)
      case None =>
        assert forall j :: 1 <= j < |names| ==> names[j] == names[1..][j - 1];
        None
      case Some(i) =>
        assert forall j :: 1 <= j < i + 1 ==> names[j] == names[1..][j - 1];
        Some(i + 1)
  }

  /** No two names have the same key. */
  ghost predicate Distinct(names: seq<string>) {
    forall i, j :: 0 <= i < j < |names| ==> Key(names[i]) != Key(names[j])
  }
}
