/** Ascending order of names: funded legs, archives, companies and tickers are all visited in it. */
module NameOrder {

  /** Code-point lexicographic order. */
  predicate NameLe(a: string, b: string) {
    if a == "" then true
    else if b == "" then false
    else if a[0] != b[0] then a[0] < b[0]
    else NameLe(a[1..], b[1..])
  }

  lemma {:induction false} NameLeTotal(a: string, b: string)
    ensures NameLe(a, b) || NameLe(b, a)
    ensures NameLe(a, b) && NameLe(b, a) ==> a == b
  {
    if a != "" && b != "" && a[0] == b[0] {
      NameLeTotal(a[1..], b[1..]);
      assert a == [a[0]] + a[1..] && b == [b[0]] + b[1..];
    }
  }

  lemma {:induction false} NameLeTransitive(a: string, b: string, c: string)
    requires NameLe(a, b) && NameLe(b, c)
    ensures NameLe(a, c)
  {
    if a != "" && b != "" && c != "" && a[0] == b[0] == c[0] {
      NameLeTransitive(a[1..], b[1..], c[1..]);
    }
  }

  predicate IsLeast(least: string, names: set<string>) {
    least in names && forall x | x in names :: NameLe(least, x)
  }

  lemma {:induction false} LeastExists(names: set<string>) returns (least: string)
    requires names != {}
    ensures IsLeast(least, names)
    decreases |names|
  {
    var x :| x in names;
    NameLeTotal(x, x);
    if names == {x} {
      least := x;
    } else {
      assert names - {x} != {};
      var y := LeastExists(names - {x});
      NameLeTotal(x, y);
      least := if NameLe(x, y) then x else y;
      forall z | z in names ensures NameLe(least, z) {
        if z != x && least == x {
          NameLeTransitive(x, y, z);
        }
      }
    }
  }

  /** The names in ascending order. */
  ghost function Ascending(names: set<string>): (r: seq<string>)
    ensures forall x :: x in r <==> x in names
    ensures forall i, j | 0 <= i < j < |r| :: r[i] != r[j] && NameLe(r[i], r[j])
    decreases |names|
  {
    if names == {} then []
    else
      LeastHere(names);
      var least :| IsLeast(least, names);
      [least] + Ascending(names - {least})
  }

  lemma LeastHere(names: set<string>)
    requires names != {}
    ensures exists least :: IsLeast(least, names)
  {
    var least := LeastExists(names);
  }

  lemma AscendingHead(names: set<string>, least: string)
    requires IsLeast(least, names)
    ensures Ascending(names) == [least] + Ascending(names - {least})
  {
    var other :| IsLeast(other, names) && Ascending(names) == [other] + Ascending(names - {other});
    NameLeTotal(least, other);
  }

  function KeepNames(names: seq<string>, keep: set<string>): seq<string> {
    if names == [] then []
    else if names[0] in keep then [names[0]] + KeepNames(names[1..], keep)
    else KeepNames(names[1..], keep)
  }

  /** Dropping names from the set is dropping them from the list. */
  lemma {:induction false} AscendingOfSubset(names: set<string>, keep: set<string>)
    requires keep <= names
    ensures Ascending(keep) == KeepNames(Ascending(names), keep)
    decreases |names|
  {
    if names != {} {
      var least := LeastExists(names);
      AscendingHead(names, least);
      var tail := Ascending(names - {least});
      assert ([least] + tail)[1..] == tail;
      if least in keep {
        AscendingHead(keep, least);
        AscendingOfSubset(names - {least}, keep - {least});
        KeepNamesFrame(tail, keep, keep - {least});
      } else {
        AscendingOfSubset(names - {least}, keep);
      }
    }
  }

  lemma {:induction false} KeepNamesFrame(names: seq<string>, keep: set<string>, keep': set<string>)
    requires forall x | x in names :: x in keep <==> x in keep'
    ensures KeepNames(names, keep) == KeepNames(names, keep')
  {
    if names != [] {
      assert names[0] in names;
      KeepNamesFrame(names[1..], keep, keep');
    }
  }

  lemma Regroup(before: seq<string>, x: string, after: seq<string>)
    ensures before + ([x] + after) == before + [x] + after
  {
  }

  method Least(names: set<string>) returns (least: string)
    requires names != {}
    ensures IsLeast(least, names)
  {
    LeastHere(names);
    least :| IsLeast(least, names);
  }

  /** Selection sort of a set of names. */
  method SortNames(names: set<string>) returns (sorted: seq<string>)
    ensures sorted == Ascending(names)
  {
    sorted := [];
    var rest := names;
    while rest != {}
      invariant sorted + Ascending(rest) == Ascending(names)
      decreases |rest|
    {
      var least := Least(rest);
      AscendingHead(rest, least);
      Regroup(sorted, least, Ascending(rest - {least}));
      sorted := sorted + [least];
      rest := rest - {least};
    }
    assert sorted + [] == sorted;
  }
}
