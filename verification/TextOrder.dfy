/**
 The order in which Python sorts strings: by code points, from the front.
 */
module TextOrder {
  /** The order in which Python sorts strings. */
  predicate AtMost(a: string, b: string) {
    a == "" || (b != "" && (a[0] < b[0] || (a[0] == b[0] && AtMost(a[1..], b[1..]))))
  }

  lemma {:induction false} OrderIsTotal(a: string, b: string)
    ensures AtMost(a, b) || AtMost(b, a)
  {
    if a != "" && b != "" {
      OrderIsTotal(a[1..], b[1..]);
    }
  }

  lemma {:induction false} OrderIsTransitive(a: string, b: string, c: string)
    requires AtMost(a, b) && AtMost(b, c)
    ensures AtMost(a, c)
  {
    if a != "" && b != "" && c != "" {
      if a[0] == b[0] && b[0] == c[0] {
        OrderIsTransitive(a[1..], b[1..], c[1..]);
      }
    }
  }

  lemma {:induction false} OrderIsAntisymmetric(a: string, b: string)
    requires AtMost(a, b) && AtMost(b, a)
    ensures a == b
  {
    if a != "" && b != "" {
      OrderIsAntisymmetric(a[1..], b[1..]);
      assert a == [a[0]] + a[1..] && b == [b[0]] + b[1..];
    }
  }

  // ----- sorting -----

  /** The names are those of the set, each once and in order. */
  ghost predicate InOrder(names: seq<string>, all: set<string>) {
    && (forall name :: name in names <==> name in all)
    && (forall i, j :: 0 <= i < j < |names| ==> names[i] != names[j] && AtMost(names[i], names[j]))
  }

  lemma {:induction false} LeastExists(all: set<string>) returns (least: string)
    requires all != {}
    ensures least in all && forall name :: name in all ==> AtMost(least, name)
  {
    hide AtMost;
    var first :| first in all;
    OrderIsTotal(first, first);
    least := first;
    var rest := all - {first};
    assert forall name :: name in all ==> name == first || name in rest;
    if rest != {} {
      var other := LeastExists(rest);
      OrderIsTotal(first, other);
      OrderIsTotal(other, other);
      least := if AtMost(first, other) then first else other;
      forall name | name in all ensures AtMost(least, name) {
        if name != first {
          assert name in rest;
          OrderIsTransitive(least, other, name);
        }
      }
    }
  }

  lemma {:induction false} OrderExists(all: set<string>)
    ensures exists names :: InOrder(names, all)
  {
    hide AtMost;
    if all == {} {
      assert InOrder([], all);
    } else {
      var least := LeastExists(all);
      OrderExists(all - {least});
      var rest :| InOrder(rest, all - {least});
      LeastGoesFirst(least, rest, all);
    }
  }

  lemma LeastGoesFirst(least: string, rest: seq<string>, all: set<string>)
    requires least in all && (forall name :: name in all ==> AtMost(least, name)) && InOrder(rest, all - {least})
    ensures InOrder([least] + rest, all)
  {
    hide AtMost;
    var names := [least] + rest;
    forall i, j | 0 <= i < j < |names| ensures names[i] != names[j] && AtMost(names[i], names[j]) {
      assert names[j] == rest[j - 1] && rest[j - 1] in rest;
      assert i > 0 ==> names[i] == rest[i - 1];
    }
  }

  /** There is one such order. */
  lemma {:induction false} OrderIsUnique(a: seq<string>, b: seq<string>, all: set<string>)
    requires InOrder(a, all) && InOrder(b, all)
    ensures a == b
    decreases |a|
  {
    hide AtMost;
    if a == [] {
      assert all == {};
      FirstIsIn(b, all);
    } else {
      assert a[0] in a;
      FirstIsLeast(b, all, a[0]);
      assert b[0] in b;
      FirstIsLeast(a, all, b[0]);
      OrderIsAntisymmetric(a[0], b[0]);
      RestIsInOrder(a, all);
      RestIsInOrder(b, all);
      OrderIsUnique(a[1..], b[1..], all - {a[0]});
    }
  }

  lemma FirstIsIn(names: seq<string>, all: set<string>)
    requires InOrder(names, all)
    ensures names != [] ==> names[0] in all
  {
    if names != [] {
      assert names[0] in names;
    }
  }

  lemma FirstIsLeast(names: seq<string>, all: set<string>, name: string)
    requires InOrder(names, all) && name in all
    ensures names != [] && AtMost(names[0], name)
  {
    hide AtMost;
    var i :| 0 <= i < |names| && names[i] == name;
    if i == 0 {
      OrderIsTotal(name, name);
    }
  }

  lemma RestIsInOrder(names: seq<string>, all: set<string>)
    requires InOrder(names, all) && names != []
    ensures InOrder(names[1..], all - {names[0]})
  {
    hide AtMost;
    var rest := names[1..];
    forall name ensures name in rest <==> name in all - {names[0]} {
      if name in rest {
        var i :| 0 <= i < |rest| && rest[i] == name;
        assert names[i + 1] == name && name in names;
      }
      if name in all - {names[0]} {
        var i :| 0 <= i < |names| && names[i] == name;
        assert rest[i - 1] == name;
      }
    }
  }

  /** `sorted` of a set. */
  ghost function Sorted(all: set<string>): (names: seq<string>)
    ensures InOrder(names, all)
  {
    OrderExists(all);
    var names :| InOrder(names, all);
    names
  }

  method Sort(all: set<string>) returns (names: seq<string>)
    ensures names == Sorted(all)
  {
    hide AtMost, InOrder;
    names := [];
    var todo: set<string> := all;
    ghost var done: set<string> := {};
    NothingToSort();
    while todo != {}
      invariant done !! todo && done + todo == all
      invariant InOrder(names, done)
      decreases todo
    {
      var name :| name in todo;
      names := Insert(names, name, done);
      todo, done := todo - {name}, done + {name};
    }
    assert done == all;
    OrderIsUnique(names, Sorted(all), all);
  }

  lemma NothingToSort()
    ensures InOrder([], {})
  {
  }

  /** Put a new name in its place. */
  method Insert(names: seq<string>, name: string, ghost all: set<string>) returns (more: seq<string>)
    requires InOrder(names, all) && name !in all
    ensures InOrder(more, all + {name})
  {
    hide AtMost;
    var i := 0;
    while i < |names| && AtMost(names[i], name)
      invariant 0 <= i <= |names|
      invariant forall k :: 0 <= k < i ==> AtMost(names[k], name)
    {
      i := i + 1;
    }
    if i < |names| {
      OrderIsTotal(names[i], name);
    }
    InsertedIsInOrder(names, name, all, i);
    more := names[..i] + [name] + names[i..];
  }

  lemma InsertedIsInOrder(names: seq<string>, name: string, all: set<string>, i: nat)
    requires InOrder(names, all) && name !in all && i <= |names|
    requires forall k :: 0 <= k < i ==> AtMost(names[k], name)
    requires i < |names| ==> AtMost(name, names[i])
    ensures InOrder(names[..i] + [name] + names[i..], all + {name})
  {
    hide AtMost;
    var more := names[..i] + [name] + names[i..];
    forall k | i <= k < |names| ensures AtMost(name, names[k]) {
      if k > i {
        OrderIsTransitive(name, names[i], names[k]);
      }
    }
    forall k | 0 <= k < |names| ensures names[k] != name {
      assert names[k] in names;
    }
    forall n ensures n in more <==> n in all + {name} {
      assert n in names <==> n in names[..i] || n in names[i..];
    }
  }
}
