/**
  The per-method count of the statistics: how many times each analysis name occurs
  in the list of names recorded so far.
*/
module MethodTally {
  import opened Seqs

  /** Each name of `s` mapped to the number of its occurrences. */
  function Tally(s: seq<string>): (m: map<string, nat>)
    ensures forall k :: k in m <==> k in s
    ensures forall k :: k in m ==> m[k] == multiset(s)[k]
  {
    map k | k in s :: multiset(s)[k]
  }

  /** `method_count[name] = method_count.get(name, 0) + 1`: counting one more name. */
  function Bump(m: map<string, nat>, name: string): map<string, nat> {
    m[name := (if name in m then m[name] else 0) + 1]
  }

  /** Counting the names one at a time, as the statistics loop does, builds the tally. */
  lemma TallySnoc(s: seq<string>, name: string)
    ensures Tally(s + [name]) == Bump(Tally(s), name)
  {
    var t, b := Tally(s + [name]), Bump(Tally(s), name);
    assert multiset(s + [name]) == multiset(s) + multiset{name};
    forall k ensures k in t <==> k in b {
      assert k in s + [name] <==> k in s || k == name;
    }
    forall k | k in t ensures t[k] == b[k] {
      if k != name {
        assert k in s;
      }
    }
  }

  /** The sum of the counts of `m` over the names `keys`. */
  function SumOver(m: map<string, nat>, keys: seq<string>): nat
    requires forall i :: 0 <= i < |keys| ==> keys[i] in m
    decreases |keys|
  {
    if keys == [] then 0 else SumOver(m, keys[..|keys| - 1]) + m[keys[|keys| - 1]]
  }

  lemma {:induction false} SumOverUnaffected(m: map<string, nat>, keys: seq<string>, name: string, v: nat)
    requires forall i :: 0 <= i < |keys| ==> keys[i] in m
    requires name !in keys
    ensures SumOver(m[name := v], keys) == SumOver(m, keys)
    decreases |keys|
  {
    if keys != [] {
      SumOverUnaffected(m, keys[..|keys| - 1], name, v);
    }
  }

  lemma {:induction false} SumOverBumped(m: map<string, nat>, keys: seq<string>, name: string)
    requires forall i :: 0 <= i < |keys| ==> keys[i] in m
    requires NoDuplicates(keys) && name in keys
    ensures SumOver(Bump(m, name), keys) == SumOver(m, keys) + 1
    decreases |keys|
  {
    var front, last := keys[..|keys| - 1], keys[|keys| - 1];
    if last == name {
      assert name !in front by {
        forall i | 0 <= i < |front| ensures front[i] != name {
          assert keys[i] == front[i];
        }
      }
      SumOverUnaffected(m, front, name, m[name] + 1);
    } else {
      assert name in front by {
        var i :| 0 <= i < |keys| && keys[i] == name;
        assert front[i] == name;
      }
      SumOverBumped(m, front, name);
    }
  }

  /** The counts of the tally add up to the number of recorded names. */
  lemma {:induction false} TallySum(s: seq<string>)
    ensures forall i :: 0 <= i < |Distinct(s)| ==> Distinct(s)[i] in Tally(s)
    ensures SumOver(Tally(s), Distinct(s)) == |s|
    decreases |s|
  {
    if s != [] {
      var front, last := s[..|s| - 1], s[|s| - 1];
      assert s == front + [last];
      TallySum(front);
      TallySnoc(front, last);
      var d := Distinct(front);
      if last in d {
        SumOverBumped(Tally(front), d, last);
      } else {
        assert last !in Tally(front);
        SumOverUnaffected(Tally(front), d, last, 1);
        assert Distinct(s) == d + [last];
        assert Distinct(s)[..|d|] == d;
      }
    }
  }
}
