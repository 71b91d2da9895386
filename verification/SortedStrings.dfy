/** Python's sorted(set(...)) of strings, ordered by code points. */
module SortedStrings {

  predicate Less(s: string, t: string) {
    t != [] && (s == [] || s[0] < t[0] || (s[0] == t[0] && Less(s[1..], t[1..])))
  }

  lemma {:induction false} LessIsTotal(s: string, t: string)
    ensures s == t || Less(s, t) || Less(t, s)
    ensures !(Less(s, t) && Less(t, s)) && !Less(s, s)
  {
    if s != [] {
      if t != [] {
        LessIsTotal(s[1..], t[1..]);
        assert s == [s[0]] + s[1..] && t == [t[0]] + t[1..];
      }
      LessIsTotal(s[1..], s[1..]);
    }
  }

  lemma {:induction false} LessIsTransitive(s: string, t: string, u: string)
    requires Less(s, t) && Less(t, u)
    ensures Less(s, u)
  {
    if s != [] && s[0] == t[0] && t[0] == u[0] {
      LessIsTransitive(s[1..], t[1..], u[1..]);
    }
  }

  ghost predicate Ascending(s: seq<string>) {
    forall i, j :: 0 <= i < j < |s| ==> Less(s[i], s[j])
  }

  function Elements(s: seq<string>): set<string> {
    set x | x in s
  }

  function Insert(s: seq<string>, x: string): seq<string> {
    if s == [] then [x]
    else if s[0] == x then s
    else if Less(x, s[0]) then [x] + s
    else [s[0]] + Insert(s[1..], x)
  }

  lemma {:induction false} InsertKeepsAscending(s: seq<string>, x: string)
    requires Ascending(s)
    ensures Ascending(Insert(s, x))
    ensures Elements(Insert(s, x)) == Elements(s) + {x}
  {
    if s != [] {
      assert s == [s[0]] + s[1..];
      if Less(x, s[0]) {
        forall j | 0 <= j < |s| ensures Less(x, s[j]) {
          if j > 0 {
            LessIsTransitive(x, s[0], s[j]);
          }
        }
      } else if s[0] != x {
        LessIsTotal(x, s[0]);
        InsertKeepsAscending(s[1..], x);
        var rest := Insert(s[1..], x);
        forall j | 0 <= j < |rest| ensures Less(s[0], rest[j]) {
          assert rest[j] in Elements(rest);
          if rest[j] != x {
            assert rest[j] in s[1..];
          }
        }
        InsertElements(s, x);
      }
    }
  }

  lemma InsertElements(s: seq<string>, x: string)
    requires s != [] && Elements(Insert(s[1..], x)) == Elements(s[1..]) + {x}
    ensures Elements([s[0]] + Insert(s[1..], x)) == Elements(s) + {x}
  {
    var rest := Insert(s[1..], x);
    assert forall y :: y in [s[0]] + rest <==> y == s[0] || y in Elements(rest);
    assert forall y :: y in s <==> y == s[0] || y in Elements(s[1..]);
  }

  // sorted(set(xs))
  function SortedSet(xs: seq<string>): seq<string> {
    if xs == [] then [] else Insert(SortedSet(xs[..|xs| - 1]), xs[|xs| - 1])
  }

  lemma {:induction false} SortedSetIsAscending(xs: seq<string>)
    ensures Ascending(SortedSet(xs)) && Elements(SortedSet(xs)) == Elements(xs)
  {
    if xs != [] {
      var last := |xs| - 1;
      SortedSetIsAscending(xs[..last]);
      InsertKeepsAscending(SortedSet(xs[..last]), xs[last]);
      assert xs == xs[..last] + [xs[last]];
    }
  }

  // There is only one ascending list of given strings.
  lemma {:induction false} AscendingIsCanonical(s: seq<string>, t: seq<string>)
    requires Ascending(s) && Ascending(t) && Elements(s) == Elements(t)
    ensures s == t
  {
    assert t != [] ==> t[0] in Elements(t);
    if s != [] {
      assert s[0] in Elements(t);
      LeastFirst(s, t);
      LeastFirst(t, s);
      LessIsTotal(s[0], t[0]);
      AscendingIsCanonical(s[1..], t[1..]);
    }
  }

  lemma LeastFirst(s: seq<string>, t: seq<string>)
    requires Ascending(s) && Ascending(t) && Elements(s) == Elements(t) && s != [] && t != []
    ensures s[0] == t[0] || Less(s[0], t[0])
    ensures s[0] == t[0] ==> Elements(s[1..]) == Elements(t[1..])
  {
    assert t[0] in Elements(s);
    var i :| 0 <= i < |s| && s[i] == t[0];
    if s[0] == t[0] {
      TailElements(s);
      TailElements(t);
    }
  }

  lemma TailElements(s: seq<string>)
    requires Ascending(s) && s != []
    ensures Elements(s[1..]) == Elements(s) - {s[0]}
  {
    LessIsTotal(s[0], s[0]);
    assert s == [s[0]] + s[1..];
    forall j | 1 <= j < |s| ensures s[j] != s[0] {
      assert Less(s[0], s[j]);
    }
  }
}
