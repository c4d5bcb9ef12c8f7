/** References that a move carries: a kind and an identifier, ordered by kind first. */
module Refs {
  import opened Text

  datatype Ref = Ref(kind: string, id: string)

  predicate RefBefore(a: Ref, b: Ref) {
    TextBefore(a.kind, b.kind) || (a.kind == b.kind && TextBefore(a.id, b.id))
  }

  lemma RefBeforeTransitive(a: Ref, b: Ref, c: Ref)
    requires RefBefore(a, b) && RefBefore(b, c)
    ensures RefBefore(a, c)
  {
    if TextBefore(a.kind, b.kind) && TextBefore(b.kind, c.kind) { CompareTextTransitive(a.kind, b.kind, c.kind); }
    if TextBefore(a.id, b.id) && TextBefore(b.id, c.id) { CompareTextTransitive(a.id, b.id, c.id); }
  }

  lemma RefBeforeTotal(a: Ref, b: Ref)
    ensures a == b || RefBefore(a, b) || RefBefore(b, a)
    ensures !(RefBefore(a, b) && RefBefore(b, a)) && !RefBefore(a, a)
  {
    TextBeforeTotal(a.kind, b.kind);
    TextBeforeTotal(a.id, b.id);
    TextBeforeTotal(a.kind, a.kind);
    TextBeforeTotal(a.id, a.id);
  }

  ghost predicate FirstRef(refs: set<Ref>, r: Ref) {
    r in refs && forall o :: o in refs && o != r ==> RefBefore(r, o)
  }

  lemma {:induction false} FirstRefExists(refs: set<Ref>)
    requires refs != {}
    ensures exists r :: FirstRef(refs, r)
  {
    hide RefBefore;
    var r :| r in refs;
    var rest := refs - {r};
    if rest == {} {
      assert refs == {r};
      assert FirstRef(refs, r);
    } else {
      FirstRefExists(rest);
      var m :| FirstRef(rest, m);
      RefBeforeTotal(r, m);
      if RefBefore(m, r) {
        assert FirstRef(refs, m);
      } else {
        forall o | o in refs && o != r ensures RefBefore(r, o) {
          if o != m { RefBeforeTransitive(r, m, o); }
        }
        assert FirstRef(refs, r);
      }
    }
  }

  lemma FirstRefUnique(refs: set<Ref>, a: Ref, b: Ref)
    requires FirstRef(refs, a) && FirstRef(refs, b)
    ensures a == b
  {
    hide RefBefore;
    RefBeforeTotal(a, b);
  }
}
