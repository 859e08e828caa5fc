/** Constants that are sums of others (scripts/check-wire-constants.py,
    _resolve_sums). An expression is its terms, split at `+` and stripped. */
module ResolveSums {

  datatype Term = Blank | Literal(value: nat) | Name(name: string)

  datatype Sum = Sum(name: string, terms: seq<Term>)

  type Values = map<string, int>

  predicate Known(t: Term, out: Values) { t.Literal? || (t.Name? && t.name in out) }

  function ValueOf(t: Term, out: Values): int
    requires Known(t, out)
  {
    if t.Literal? then t.value else out[t.name]
  }

  predicate Ready(terms: seq<Term>, out: Values) { forall i :: 0 <= i < |terms| ==> Known(terms[i], out) }

  function Total(terms: seq<Term>, out: Values): int
    requires Ready(terms, out)
  {
    if terms == [] then 0 else Total(terms[..|terms| - 1], out) + ValueOf(terms[|terms| - 1], out)
  }

  predicate Blanks(terms: seq<Term>) { Blank in terms }

  // What the answer should be: the least map the sums agree with.

  ghost predicate Within(a: Values, b: Values) { forall n :: n in a ==> n in b && b[n] == a[n] }

  /** Whether a map has what a sum gives it. */
  ghost predicate Obeys(m: Values, base: Values, s: Sum) {
    s.name in base || (Ready(s.terms, m) ==> s.name in m && m[s.name] == Total(s.terms, m))
  }

  ghost predicate Closed(m: Values, base: Values, sums: seq<Sum>) {
    Within(base, m) && forall s :: s in sums ==> Obeys(m, base, s)
  }

  /** Everything added has a sum of known terms to say what it is. */
  ghost predicate Supported(m: Values, base: Values, sums: seq<Sum>) {
    forall n :: n in m && n !in base ==>
      exists s :: s in sums && s.name == n && Ready(s.terms, m) && m[n] == Total(s.terms, m)
  }

  /** With no map the sums agree with, two of one name disagreeing, this says nothing; LeastNames still does. */
  ghost predicate Least(m: Values, base: Values, sums: seq<Sum>) {
    Within(base, m) && forall c: Values :: Closed(c, base, sums) ==> Within(m, c)
  }

  /** Which names resolve, whatever the sums: names a set of sums closes, where every name a
      ready sum gives is in it. */
  ghost predicate NamesClosed(names: set<string>, base: Values, sums: seq<Sum>) {
    base.Keys <= names && forall s :: s in sums && ReadyIn(s.terms, names) ==> s.name in names
  }

  ghost predicate ReadyIn(terms: seq<Term>, names: set<string>) {
    forall i :: 0 <= i < |terms| ==> terms[i].Literal? || (terms[i].Name? && terms[i].name in names)
  }

  ghost predicate LeastNames(m: Values, base: Values, sums: seq<Sum>) {
    NamesClosed(m.Keys, base, sums) && forall names :: NamesClosed(names, base, sums) ==> m.Keys <= names
  }

  ghost predicate DistinctNames(sums: seq<Sum>) {
    forall i, j :: 0 <= i < j < |sums| ==> sums[i].name != sums[j].name
  }

  lemma {:induction false} TotalWithin(terms: seq<Term>, a: Values, b: Values)
    requires Within(a, b) && Ready(terms, a)
    ensures Ready(terms, b) && Total(terms, a) == Total(terms, b)
    decreases |terms|
  {
    if terms != [] { TotalWithin(terms[..|terms| - 1], a, b); }
  }

  /** A sum is the sum of its parts: a literal its value, a name what it stands for. */
  lemma {:induction false} TotalSplits(a: seq<Term>, b: seq<Term>, out: Values)
    ensures Ready(a + b, out) <==> Ready(a, out) && Ready(b, out)
    ensures Ready(a + b, out) ==> Total(a + b, out) == Total(a, out) + Total(b, out)
    decreases |b|
  {
    assert forall i :: 0 <= i < |a| ==> (a + b)[i] == a[i];
    assert forall i :: 0 <= i < |b| ==> (a + b)[|a| + i] == b[i];
    if b == [] {
      assert a + b == a;
    } else {
      assert (a + b)[..|a + b| - 1] == a + b[..|b| - 1];
      TotalSplits(a, b[..|b| - 1], out);
    }
  }

  lemma TotalOne(out: Values, v: nat, n: string)
    ensures Ready([Literal(v)], out) && Total([Literal(v)], out) == v
    ensures Ready([Name(n)], out) <==> n in out
    ensures n in out ==> Total([Name(n)], out) == out[n]
    ensures !Ready([Blank], out) && Ready([], out) && Total([], out) == 0
  {
    assert [Literal(v)][..0] == [] && [Name(n)][..0] == [];
    assert [Name(n)][0] == Name(n) && [Blank][0] == Blank;
  }

  /** Adding what a ready sum gives keeps the map least. */
  lemma LeastStep(m: Values, base: Values, sums: seq<Sum>, s: Sum)
    requires Least(m, base, sums) && s in sums && s.name !in base && Ready(s.terms, m)
    ensures Least(m[s.name := Total(s.terms, m)], base, sums)
  {
    var m' := m[s.name := Total(s.terms, m)];
    forall c: Values | Closed(c, base, sums) ensures Within(m', c) {
      assert Obeys(c, base, s);
      TotalWithin(s.terms, m, c);
    }
  }

  /** The order of the sums does not matter: the answer is one map. */
  lemma OrderFree(a: Values, b: Values, base: Values, p: seq<Sum>, q: seq<Sum>)
    requires forall s :: s in p <==> s in q
    requires Least(a, base, p) && Closed(a, base, p) && Least(b, base, q) && Closed(b, base, q)
    ensures a == b
  {
    assert Closed(a, base, q) && Closed(b, base, p);
    assert Within(b, a) && Within(a, b);
  }

  /** With one sum a name, a name is resolved exactly when each of its terms is, and to their total. */
  lemma ResolvedIff(m: Values, base: Values, sums: seq<Sum>, s: Sum)
    requires DistinctNames(sums) && Closed(m, base, sums) && Supported(m, base, sums) && s in sums && s.name !in base
    ensures s.name in m <==> Ready(s.terms, m)
    ensures s.name in m ==> m[s.name] == Total(s.terms, m)
  {
    assert Obeys(m, base, s);
    if s.name in m {
      var t :| t in sums && t.name == s.name && Ready(t.terms, m) && m[s.name] == Total(t.terms, m);
      assert t == s;
    }
  }

  // The loop.

  function Without(pending: seq<Sum>, s: Sum): (r: seq<Sum>)
    ensures s in pending ==> |r| == |pending| - 1
  {
    if pending == [] then [] else if pending[0] == s then pending[1..] else [pending[0]] + Without(pending[1..], s)
  }

  lemma {:induction false} WithoutParts(pending: seq<Sum>, s: Sum)
    ensures forall t :: t in Without(pending, s) ==> t in pending
    ensures forall t :: t in pending && t != s ==> t in Without(pending, s)
    decreases |pending|
  {
    if pending != [] {
      assert pending == [pending[0]] + pending[1..];
      WithoutParts(pending[1..], s);
    }
  }

  /** Each sum is settled, ill-formed, or still pending. */
  ghost predicate Tracked(out: Values, base: Values, sums: seq<Sum>, pending: seq<Sum>) {
    && (forall s :: s in pending ==> s in sums && s.name !in base)
    && forall s :: s in sums ==> s in pending || Blanks(s.terms) || Settled(out, base, s)
  }

  ghost predicate Settled(out: Values, base: Values, s: Sum) {
    s.name in base || (s.name in out && Ready(s.terms, out) && out[s.name] == Total(s.terms, out))
  }

  /** The values of a sum's terms, or None at the first that is not known. */
  method Evaluate(terms: seq<Term>, out: Values) returns (known: bool, total: int)
    ensures known == Ready(terms, out) && (known ==> total == Total(terms, out))
  {
    total := 0;
    for i := 0 to |terms|
      invariant Ready(terms[..i], out) && total == Total(terms[..i], out)
    {
      assert terms[..i + 1][..i] == terms[..i];
      if !Known(terms[i], out) { return false, 0; }
      total := total + ValueOf(terms[i], out);
    }
    assert terms[..|terms|] == terms;
    known := true;
  }

  lemma {:induction false} WithoutIn(a: seq<Sum>, b: seq<Sum>, s: Sum)
    requires s in a
    ensures Without(a + b, s) == Without(a, s) + b
    decreases |a|
  {
    if a[0] == s {
      assert (a + b)[1..] == a[1..] + b;
    } else {
      WithoutIn(a[1..], b, s);
      assert (a + b)[1..] == a[1..] + b;
    }
  }

  /** Names apart, and none of them valued yet. */
  ghost predicate Apart(pending: seq<Sum>, out: Values) {
    DistinctNames(pending) && forall s :: s in pending ==> s.name !in out
  }

  lemma {:induction false} WithoutApart(pending: seq<Sum>, s: Sum)
    requires DistinctNames(pending) && s in pending
    ensures DistinctNames(Without(pending, s)) && forall t :: t in Without(pending, s) ==> t.name != s.name
    decreases |pending|
  {
    if pending[0] != s {
      WithoutApart(pending[1..], s);
      WithoutParts(pending[1..], s);
      var r := Without(pending[1..], s);
      assert Without(pending, s) == [pending[0]] + r;
      assert forall i :: 0 <= i < |r| ==> r[i] in r && r[i] in pending[1..];
    }
  }

  function Fresh(sums: seq<Sum>, base: Values): (r: seq<Sum>)
    ensures forall s :: s in r <==> s in sums && s.name !in base
  {
    if sums == [] then [] else
      var r := Fresh(sums[..|sums| - 1], base);
      var s := sums[|sums| - 1];
      if s.name in base then r else r + [s]
  }

  lemma {:induction false} FreshApart(sums: seq<Sum>, base: Values)
    requires DistinctNames(sums)
    ensures DistinctNames(Fresh(sums, base))
    decreases |sums|
  {
    if sums != [] {
      var front, s := sums[..|sums| - 1], sums[|sums| - 1];
      FreshApart(front, base);
      var r := Fresh(front, base);
      assert forall i :: 0 <= i < |r| ==> r[i] in r && r[i] in front;
    }
  }

  /** No name but those every closed set has, and each sum still pending, ill-formed, or with its name found. */
  ghost predicate Reached(out: Values, base: Values, sums: seq<Sum>, pending: seq<Sum>) {
    && base.Keys <= out.Keys
    && (forall names :: NamesClosed(names, base, sums) ==> out.Keys <= names)
    && forall s :: s in sums ==> s in pending || Blanks(s.terms) || s.name in out
  }

  /** What the loop keeps. */
  ghost predicate Kept(out: Values, base: Values, sums: seq<Sum>, pending: seq<Sum>) {
    && Least(out, base, sums) && Reached(out, base, sums, pending)
    && (forall s :: s in pending ==> s in sums && s.name !in base)
    && (DistinctNames(sums) ==> Apart(pending, out) && Tracked(out, base, sums, pending) && Supported(out, base, sums))
  }

  lemma DropKeeps(out: Values, base: Values, sums: seq<Sum>, pending: seq<Sum>, s: Sum)
    requires Kept(out, base, sums, pending) && s in pending && Blanks(s.terms)
    ensures Kept(out, base, sums, Without(pending, s))
  {
    WithoutParts(pending, s);
    if DistinctNames(sums) { WithoutApart(pending, s); }
  }

  lemma AddKeeps(out: Values, base: Values, sums: seq<Sum>, pending: seq<Sum>, s: Sum)
    requires Kept(out, base, sums, pending) && s in pending && Ready(s.terms, out)
    ensures Kept(out[s.name := Total(s.terms, out)], base, sums, Without(pending, s))
  {
    WithoutParts(pending, s);
    LeastStep(out, base, sums, s);
    ReachedMore(out, base, sums, pending, s);
    if DistinctNames(sums) {
      WithoutApart(pending, s);
      AddTracked(out, base, sums, pending, s);
    }
  }

  lemma ReachedMore(out: Values, base: Values, sums: seq<Sum>, pending: seq<Sum>, s: Sum)
    requires Reached(out, base, sums, pending) && s in pending && s in sums && Ready(s.terms, out)
    ensures Reached(out[s.name := Total(s.terms, out)], base, sums, Without(pending, s))
  {
    WithoutParts(pending, s);
    var out' := out[s.name := Total(s.terms, out)];
    forall names | NamesClosed(names, base, sums) ensures out'.Keys <= names {
      assert forall i :: 0 <= i < |s.terms| ==> Known(s.terms[i], out);
      assert ReadyIn(s.terms, names);
    }
  }

  lemma AddTracked(out: Values, base: Values, sums: seq<Sum>, pending: seq<Sum>, s: Sum)
    requires Apart(pending, out) && s in pending && s in sums && s.name !in base && Ready(s.terms, out)
    requires Tracked(out, base, sums, pending) && Supported(out, base, sums)
    ensures var out' := out[s.name := Total(s.terms, out)];
            Tracked(out', base, sums, Without(pending, s)) && Supported(out', base, sums)
  {
    var out' := out[s.name := Total(s.terms, out)];
    WithoutParts(pending, s);
    assert Within(out, out');
    TotalWithin(s.terms, out, out');
    forall t | t in sums ensures t in Without(pending, s) || Blanks(t.terms) || Settled(out', base, t) {
      if Settled(out, base, t) && t.name !in base { TotalWithin(t.terms, out, out'); }
    }
    forall n | n in out' && n !in base
      ensures exists t :: t in sums && t.name == n && Ready(t.terms, out') && out'[n] == Total(t.terms, out')
    {
      if n != s.name {
        var t :| t in sums && t.name == n && Ready(t.terms, out) && out[n] == Total(t.terms, out);
        TotalWithin(t.terms, out, out');
      }
    }
  }

  /** One pass over what is pending. */
  method Pass(was: Values, list: seq<Sum>, ghost base: Values, ghost sums: seq<Sum>)
    returns (out: Values, pending: seq<Sum>, progressed: bool)
    requires Kept(was, base, sums, list)
    ensures Kept(out, base, sums, pending) && (progressed ==> |pending| < |list|)
    ensures !progressed ==> NoneReady(pending, out)
  {
    hide *;
    out, pending, progressed := was, list, false;
    ghost var passed: seq<Sum> := [];
    assert Left(pending, passed, list, 0) by { Ends(list, passed, list); }
    assert NoneReady(passed, out) by { Unready([], Sum("", []), out); }
    for i := 0 to |list|
      invariant Kept(out, base, sums, pending) && Left(pending, passed, list, i)
      invariant |pending| <= |list| && (progressed ==> |pending| < |list|)
      invariant !progressed ==> NoneReady(passed, out)
    {
      var s := list[i];
      Split(passed, list, i, pending);
      Unready(passed, s, out);
      if Blanks(s.terms) {
        DropKeeps(out, base, sums, pending, s);
        pending := Without(pending, s);
        passed := Without(passed + [s], s);
        continue;
      }
      var known, total := Evaluate(s.terms, out);
      if known {
        AddKeeps(out, base, sums, pending, s);
        out := out[s.name := total];
        pending := Without(pending, s);
        progressed := true;
        passed := Without(passed + [s], s);
      } else {
        passed := passed + [s];
      }
    }
    Ends(pending, passed, list);
  }

  ghost predicate NoneReady(list: seq<Sum>, out: Values) { forall s :: s in list ==> !Ready(s.terms, out) }

  /** Passing over an unready sum, or dropping an ill-formed one, leaves none ready. */
  lemma Unready(passed: seq<Sum>, s: Sum, out: Values)
    ensures NoneReady([], out)
    ensures NoneReady(passed, out) && !Ready(s.terms, out) ==> NoneReady(passed + [s], out)
    ensures NoneReady(passed, out) && Blanks(s.terms) ==> NoneReady(Without(passed + [s], s), out)
  {
    WithoutParts(passed + [s], s);
    if Blanks(s.terms) {
      var i :| 0 <= i < |s.terms| && s.terms[i] == Blank;
      assert !Known(s.terms[i], out);
    }
  }

  /** What is pending at item i of a pass: what was passed over, and the rest. */
  ghost predicate Left(pending: seq<Sum>, passed: seq<Sum>, list: seq<Sum>, i: nat) {
    i <= |list| && pending == passed + list[i..]
  }

  lemma Ends(pending: seq<Sum>, passed: seq<Sum>, list: seq<Sum>)
    ensures Left(list, [], list, 0)
    ensures Left(pending, passed, list, |list|) ==> pending == passed
  {}

  lemma Split(passed: seq<Sum>, list: seq<Sum>, i: nat, pending: seq<Sum>)
    requires i < |list| && Left(pending, passed, list, i)
    ensures list[i] in pending && Left(pending, passed + [list[i]], list, i + 1)
    ensures Left(Without(pending, list[i]), Without(passed + [list[i]], list[i]), list, i + 1)
  {
    assert list[i..] == [list[i]] + list[i + 1..];
    assert pending == (passed + [list[i]]) + list[i + 1..];
    WithoutIn(passed + [list[i]], list[i + 1..], list[i]);
  }

  /** Exactly the names that resolve, whatever the sums; with one sum a name, the least
      closed map, every value in it accounted for. */
  method Resolve(sums: seq<Sum>, base: Values) returns (out: Values)
    ensures LeastNames(out, base, sums) && Least(out, base, sums)
    ensures DistinctNames(sums) ==> Closed(out, base, sums) && Supported(out, base, sums)
  {
    out := base;
    var pending := Fresh(sums, base);
    if DistinctNames(sums) { FreshApart(sums, base); }
    assert Kept(out, base, sums, pending);
    while true
      invariant Kept(out, base, sums, pending)
      decreases |pending|
    {
      var progressed;
      out, pending, progressed := Pass(out, pending, base, sums);
      if !progressed {
        FinishedNames(out, base, sums, pending);
        if DistinctNames(sums) { Finished(out, base, sums, pending); }
        return;
      }
    }
  }

  lemma FinishedNames(out: Values, base: Values, sums: seq<Sum>, pending: seq<Sum>)
    requires Reached(out, base, sums, pending) && NoneReady(pending, out)
    ensures LeastNames(out, base, sums)
  {
    forall s | s in sums && ReadyIn(s.terms, out.Keys) ensures s.name in out.Keys {
      assert forall i :: 0 <= i < |s.terms| ==> Known(s.terms[i], out);
      assert Ready(s.terms, out);
    }
  }

  /** Nothing pending can be added: the map is closed. */
  lemma Finished(out: Values, base: Values, sums: seq<Sum>, pending: seq<Sum>)
    requires Within(base, out) && Tracked(out, base, sums, pending) && NoneReady(pending, out)
    ensures Closed(out, base, sums)
  {
    forall s | s in sums ensures Obeys(out, base, s) {
      if Blanks(s.terms) {
        var i :| 0 <= i < |s.terms| && s.terms[i] == Blank;
        assert !Known(s.terms[i], out);
      }
    }
  }
}
