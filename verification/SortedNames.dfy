/** Names in ascending order, as sort.Strings leaves them: one listing for each set. */
module SortedNames {
  /** Strictly before, comparing character by character. */
  predicate Below(a: string, b: string) {
    b != "" && (a == "" || a[0] < b[0] || (a[0] == b[0] && Below(a[1..], b[1..])))
  }

  /** The order of a dictionary: the first character that differs decides, and a name comes
      before its extensions. */
  lemma {:induction false} DictionaryOrder(common: string, x: char, y: char, a: string, b: string)
    ensures Below(common, common + [x] + a)
    ensures Below(common + [x] + a, common + [y] + b) <==> x < y || (x == y && Below(a, b))
  {
    if common == "" {
      assert "" + [x] + a == [x] + a && ([x] + a)[1..] == a && "" + [y] + b == [y] + b && ([y] + b)[1..] == b;
    } else {
      DictionaryOrder(common[1..], x, y, a, b);
      assert (common + [x] + a)[1..] == common[1..] + [x] + a;
      assert (common + [y] + b)[1..] == common[1..] + [y] + b;
    }
  }

  lemma {:induction false} OneIsBelow(a: string, b: string)
    ensures a == b || Below(a, b) || Below(b, a)
  {
    if a != "" && b != "" && a[0] == b[0] {
      OneIsBelow(a[1..], b[1..]);
      assert a == [a[0]] + a[1..] && b == [b[0]] + b[1..];
    }
  }

  lemma {:induction false} NotBelowItself(a: string)
    ensures !Below(a, a)
  {
    if a != "" {
      NotBelowItself(a[1..]);
    }
  }

  lemma {:induction false} BelowTransitive(a: string, b: string, c: string)
    requires Below(a, b) && Below(b, c)
    ensures Below(a, c)
  {
    if a != "" && a[0] == b[0] == c[0] {
      BelowTransitive(a[1..], b[1..], c[1..]);
    }
  }

  ghost predicate Ascending(ns: seq<string>) {
    forall i, j :: 0 <= i < j < |ns| ==> Below(ns[i], ns[j])
  }

  function Elements(ns: seq<string>): set<string> {
    set n | n in ns
  }

  function Insert(x: string, ns: seq<string>): seq<string> {
    if ns == [] then [x] else if Below(x, ns[0]) then [x] + ns else [ns[0]] + Insert(x, ns[1..])
  }

  lemma {:induction false} InsertAscending(x: string, ns: seq<string>)
    requires Ascending(ns) && x !in ns
    ensures Ascending(Insert(x, ns)) && Elements(Insert(x, ns)) == Elements(ns) + {x}
  {
    hide Below;
    if ns != [] {
      assert ns == [ns[0]] + ns[1..];
      if Below(x, ns[0]) {
        forall j | 0 < j < |ns|
          ensures Below(x, ns[j])
        {
          BelowTransitive(x, ns[0], ns[j]);
        }
      } else {
        OneIsBelow(x, ns[0]);
        InsertAscending(x, ns[1..]);
        var rest := Insert(x, ns[1..]);
        forall n | n in rest
          ensures Below(ns[0], n)
        {
          assert n in Elements(rest);
        }
        HeadBelowAll(ns[0], rest);
        assert Elements(ns) == {ns[0]} + Elements(ns[1..]);
        assert Elements([ns[0]] + rest) == {ns[0]} + Elements(rest);
      }
    }
  }

  lemma HeadBelowAll(x: string, ns: seq<string>)
    requires Ascending(ns) && forall n :: n in ns ==> Below(x, n)
    ensures Ascending([x] + ns)
  {
    hide Below;
  }

  /** Two ascending listings of one set are the same. */
  lemma {:induction false} AscendingUnique(ms: seq<string>, ns: seq<string>)
    requires Ascending(ms) && Ascending(ns) && Elements(ms) == Elements(ns)
    ensures ms == ns
  {
    hide Below;
    NoElements(ms);
    NoElements(ns);
    if ms != [] {
      SameLeast(ms, ns);
      TailElements(ms);
      TailElements(ns);
      AscendingUnique(ms[1..], ns[1..]);
      assert ms == [ms[0]] + ms[1..] && ns == [ns[0]] + ns[1..];
    }
  }

  lemma NoElements(ns: seq<string>)
    ensures Elements(ns) == {} <==> ns == []
  {
    if ns != [] {
      assert ns[0] in Elements(ns);
    }
  }

  lemma SameLeast(ms: seq<string>, ns: seq<string>)
    requires Ascending(ms) && Ascending(ns) && Elements(ms) == Elements(ns) && ms != [] && ns != []
    ensures ms[0] == ns[0]
  {
    hide Below;
    assert ms[0] in Elements(ns) && ns[0] in Elements(ms);
    if ms[0] != ns[0] {
      BelowTransitive(ms[0], ns[0], ms[0]);
      NotBelowItself(ms[0]);
    }
  }

  lemma TailElements(ns: seq<string>)
    requires Ascending(ns) && ns != []
    ensures Elements(ns[1..]) == Elements(ns) - {ns[0]}
  {
    hide Below;
    NotBelowItself(ns[0]);
    assert ns == [ns[0]] + ns[1..];
  }

  /** The members of a set in ascending order. */
  ghost function Listing(names: set<string>): (ns: seq<string>)
    ensures Ascending(ns) && Elements(ns) == names
  {
    if names == {} then []
    else
      var x :| x in names;
      var rest := Listing(names - {x});
      assert x !in Elements(rest);
      InsertAscending(x, rest);
      Insert(x, rest)
  }

  /** The loop over a set of names, and sort.Strings. */
  method Sort(names: set<string>) returns (ns: seq<string>)
    ensures ns == Listing(names)
  {
    ns := [];
    var rest := names;
    while rest != {}
      invariant rest <= names && Ascending(ns) && Elements(ns) == names - rest
      decreases rest
    {
      hide Below, Insert;
      var x :| x in rest;
      assert x !in Elements(ns);
      InsertAscending(x, ns);
      ns, rest := Insert(x, ns), rest - {x};
    }
    AscendingUnique(ns, Listing(names));
  }
}
