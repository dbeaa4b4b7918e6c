/** Small shared vocabulary: optional values, points, real min/max/abs, `Math.round`,
    first-match search over a sequence (`Array.prototype.find`) and insertion-ordered
    sets (a JavaScript `Set` or `Map` filled key by key). */
module Common {

  datatype Option<T> = None | Some(value: T)

  /** Opaque tile identifier (a UUID string in the program). */
  type TileId = string

  /** A position in canvas pixels. */
  datatype Point = Point(x: real, y: real)

  /** The store's camera framing mode. */
  datatype ViewMode = Overview | Focused

  function Abs(v: real): (a: real)
    ensures a >= 0.0 && (a == v || a == -v)
  {
    if v < 0.0 then -v else v
  }

  function AbsInt(v: int): (a: nat)
    ensures a == v || a == -v
  {
    if v < 0 then -v else v
  }

  /** `Math.min` of two reals. */
  function Min(a: real, b: real): (m: real)
    ensures m <= a && m <= b && (m == a || m == b)
  {
    if a < b then a else b
  }

  /** `Math.max` of two reals. */
  function Max(a: real, b: real): (m: real)
    ensures m >= a && m >= b && (m == a || m == b)
  {
    if a > b then a else b
  }

  /** `Math.round`: the nearest integer, with halves rounded towards +infinity. */
  function Round(v: real): (n: int)
    ensures v - 0.5 < n as real <= v + 0.5
  {
    (v + 0.5).Floor
  }

  lemma RoundOfInteger(n: int)
    ensures Round(n as real) == n
  {
  }

  /** Index of the first element satisfying `p` (what `find` returns, by position). */
  function FindIndex<T>(s: seq<T>, p: T -> bool): (k: Option<nat>)
    ensures k.None? <==> forall i :: 0 <= i < |s| ==> !p(s[i])
    ensures k.Some? ==> k.value < |s| && p(s[k.value]) && forall j :: 0 <= j < k.value ==> !p(s[j])
  {
    if s == [] then None
    else if p(s[0]) then Some(0)
    else match FindIndex(s[1..], p)
      case None => None
      case Some(k) => Some(k + 1)
  }

  /** `Array.prototype.find`: the first element satisfying `p`, if any. */
  function Find<T>(s: seq<T>, p: T -> bool): (r: Option<T>)
    ensures r.None? <==> forall i :: 0 <= i < |s| ==> !p(s[i])
    ensures r.Some? ==> r.value in s && p(r.value)
    ensures r.Some? ==> exists k :: 0 <= k < |s| && s[k] == r.value && forall j :: 0 <= j < k ==> !p(s[j])
  {
    match FindIndex(s, p)
    case None => None
    case Some(k) => Some(s[k])
  }

  /** A JavaScript id test `if (id)`: present and not the empty string. */
  predicate Truthy(id: Option<TileId>) {
    id.Some? && id.value != ""
  }

  predicate NoDup<T(==)>(s: seq<T>) {
    forall i, j :: 0 <= i < j < |s| ==> s[i] != s[j]
  }

  /** Adding one key to an insertion-ordered set, skipping keys in `excluded`. */
  function Insert<T(==)>(acc: seq<T>, c: T, excluded: set<T>): seq<T> {
    if c in excluded || c in acc then acc else acc + [c]
  }

  /** Adding `cells` one after the other, in order. */
  function InsertAll<T(==)>(acc: seq<T>, cells: seq<T>, excluded: set<T>): seq<T>
    decreases |cells|
  {
    if cells == [] then acc
    else Insert(InsertAll(acc, cells[..|cells| - 1], excluded), cells[|cells| - 1], excluded)
  }

  /** An insertion-ordered set only grows, gains exactly the non-excluded keys offered,
      and stays duplicate-free and disjoint from `excluded`. */
  lemma {:induction false} InsertAllSpec<T>(acc: seq<T>, cells: seq<T>, excluded: set<T>)
    ensures acc <= InsertAll(acc, cells, excluded)
    ensures forall c :: c in InsertAll(acc, cells, excluded) <==> c in acc || (c in cells && c !in excluded)
    ensures NoDup(acc) ==> NoDup(InsertAll(acc, cells, excluded))
    ensures (forall c :: c in acc ==> c !in excluded) ==>
              forall c :: c in InsertAll(acc, cells, excluded) ==> c !in excluded
    decreases |cells|
  {
    if cells != [] {
      var init := cells[..|cells| - 1];
      InsertAllSpec(acc, init, excluded);
      assert forall c :: c in cells <==> c in init || c == cells[|cells| - 1];
    }
  }
}
