/** What several components share: a value that may be missing, lists without repetitions, sizes of sets, and the
    largest machine word. */
module Options {
  const SIZE_MAX: nat := 0xFFFF_FFFF_FFFF_FFFF

  /** The source's optional results and its error node. */
  datatype Option<+A> = None | Some(value: A)

  ghost predicate Distinct<A(!new)>(s: seq<A>) {
    forall i, j :: 0 <= i < j < |s| ==> s[i] != s[j]
  }

  lemma {:induction false} Bigger<A>(a: set<A>, b: set<A>)
    requires a <= b
    ensures |a| <= |b| && (|a| == |b| ==> a == b)
  {
    if x :| x in b && x !in a {
      Bigger(a, b - {x});
    } else {
      assert a == b;
    }
  }

  lemma Fewer<A>(a: set<A>, b: set<A>, x: A)
    requires a <= b && x in b && x !in a
    ensures |a| < |b|
  {
    Bigger(a, b - {x});
  }
}
