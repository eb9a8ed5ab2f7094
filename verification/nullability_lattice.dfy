/**
 * What both pointer-nullability analyses share: the lattice that maps
 * each expression to its nullability vector, filled bottom-up and never
 * overwritten, and the few list operations the transfer rules apply to
 * vectors (prepend, drop the front, take a prefix, overwrite the front).
 *
 * The lattice class itself (`PointerNullabilityLattice`) is not part of
 * this model; its `insertExprNullabilityIfAbsent` is modelled from the way
 * both analyses use it: look the expression up, and only when it is
 * missing compute a vector and insert it.
 */
module NullabilityLattice {
  import opened Wrappers
  import opened NullTypes

  /** An expression of the function being analysed, by identity. */
  type ExprId = nat

  /** `ExprToNullability`: the vectors computed so far. */
  type Lattice = map<ExprId, seq<NK>>

  /** `later` still holds every vector `earlier` held, unchanged. */
  predicate Keeps(earlier: Lattice, later: Lattice) {
    forall e :: e in earlier ==> e in later && later[e] == earlier[e]
  }

  lemma KeepsTrans(a: Lattice, b: Lattice, c: Lattice)
    requires Keeps(a, b) && Keeps(b, c)
    ensures Keeps(a, c)
  {
  }

  /**
   * The insertion of `insertExprNullabilityIfAbsent` once its vector is
   * computed: a vector already present (possibly stored while computing)
   * is kept.
   */
  function InsertIfAbsent(l: Lattice, e: ExprId, v: seq<NK>): (r: Lattice)
    ensures e in r && r[e] == (if e in l then l[e] else v)
    ensures Keeps(l, r) && r.Keys == l.Keys + {e}
  {
    if e in l then l else l[e := v]
  }

  /**
   * `insertExprNullabilityIfAbsent` with a computation that does not touch
   * the lattice: the stored vector if there is one, otherwise `default`,
   * which is stored.
   */
  function LookupOrInsert(l: Lattice, e: ExprId, default: seq<NK>): (r: (seq<NK>, Lattice))
    ensures e in r.1 && r.1[e] == r.0
    ensures Keeps(l, r.1) && r.1.Keys == l.Keys + {e}
    ensures e !in l ==> r.0 == default
  {
    (if e in l then l[e] else default, InsertIfAbsent(l, e, default))
  }

  // ---------------------------------------------------------------------
  // Vector operations

  /** `prepend(Head, Tail)`. */
  function Prepend(head: NK, tail: seq<NK>): (r: seq<NK>)
    ensures |r| == |tail| + 1 && r[0] == head && r[1..] == tail
  {
    [head] + tail
  }

  /**
   * `ArrayRef::drop_front()`, whose assertion stops the analysis on an
   * empty vector.
   */
  function DropFront(v: seq<NK>): (r: Result<seq<NK>>)
    ensures r.Ok? <==> |v| > 0
    ensures r.Ok? ==> Prepend(v[0], r.value) == v
  {
    if |v| == 0 then Err(DropFrontMsg) else Ok(v[1..])
  }

  const DropFrontMsg := "Dropping more elements than exist"

  /** `ArrayRef::take_front(n)`: at most the first `n` entries. */
  function TakeFront(v: seq<NK>, n: nat): (r: seq<NK>)
    ensures |r| == if n < |v| then n else |v|
    ensures forall i :: 0 <= i < |r| ==> r[i] == v[i]
  {
    if n < |v| then v[..n] else v
  }

  /** `V.front() = k`: undefined behaviour on an empty vector. */
  function SetFront(v: seq<NK>, k: NK): (r: Result<seq<NK>>)
    ensures r.Ok? <==> |v| > 0
    ensures r.Ok? ==> |r.value| == |v| && r.value[0] == k && r.value[1..] == v[1..]
  {
    if |v| == 0 then Err(EmptyFrontMsg) else Ok([k] + v[1..])
  }

  const EmptyFrontMsg := "front() of an empty vector"

  /** Undoing a prepend gives the tail back. */
  lemma DropFrontOfPrepend(head: NK, tail: seq<NK>)
    ensures DropFront(Prepend(head, tail)) == Ok(tail)
  {
  }

  /** All Unspecified. */
  function AllUnspecified(n: nat): (r: seq<NK>)
    ensures |r| == n && forall i :: 0 <= i < n ==> r[i] == Unspecified
  {
    seq(n, _ => Unspecified)
  }

  /**
   * The repair `computeNullability` applies before storing: a vector
   * without exactly one entry per pointer (`n` of them) cannot be
   * interpreted and is replaced by all-Unspecified.
   */
  function Normalize(v: seq<NK>, n: nat): (r: seq<NK>)
    ensures |r| == n
    ensures |v| == n ==> r == v
    ensures |v| != n ==> forall i :: 0 <= i < n ==> r[i] == Unspecified
  {
    if |v| == n then v else AllUnspecified(n)
  }

  // ---------------------------------------------------------------------
  // Reading the result

  /**
   * Clang's `Type::getNullability`: the nullability of the outermost
   * nullability attribute reached through sugar, if any. A canonical type
   * carries none, and an attribute written outermost is the answer.
   */
  function TypeOwnNullability(t: Ty): (r: Option<NK>)
    ensures IsCanonical(t) ==> r.None?
    ensures t.Attributed? && t.nullability.Some? ==> r == t.nullability
    ensures r.Some? ==> !IsCanonical(t)
  {
    match t
    case Attributed(Some(k), _) => Some(k)
    case Attributed(None, m) => TypeOwnNullability(m)
    case Sugar(u) => TypeOwnNullability(u)
    case AliasSpec(_, _, _, a) => TypeOwnNullability(a)
    case Elaborated(_, n) => TypeOwnNullability(n)
    case Subst(_, _, _, r) => TypeOwnNullability(r)
    case _ => None
  }

  /**
   * `getPointerNullability` of an expression `e` of type `t`: the
   * nullability written on the type unless it is (or defaults to)
   * Unspecified; then the top entry of the stored vector, if there is one;
   * otherwise Unspecified.
   */
  function PointerNullability(t: Ty, l: Lattice, e: ExprId): (r: NK)
    ensures TypeOwnNullability(t).GetOr(Unspecified) != Unspecified ==> r == TypeOwnNullability(t).value
    ensures TypeOwnNullability(t).GetOr(Unspecified) == Unspecified ==>
      (r != Unspecified ==> e in l && |l[e]| > 0 && r == l[e][0])
      && (e in l && |l[e]| > 0 ==> r == l[e][0])
  {
    var own := TypeOwnNullability(t);
    if own.GetOr(Unspecified) != Unspecified then own.value
    else if e in l && |l[e]| > 0 then l[e][0]
    else Unspecified
  }
}
