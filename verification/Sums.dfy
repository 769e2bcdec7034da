/** Sums over the keys of a map, independent of the order in which the keys are visited. */
module Sums {
  ghost function Sum(keys: set<string>, f: string -> real): real {
    if keys == {} then 0.0
    else
      var k :| k in keys;
      f(k) + Sum(keys - {k}, f)
  }

  /** Any key may be taken out first. */
  lemma {:induction false} Extract(keys: set<string>, f: string -> real, k: string)
    requires k in keys
    ensures Sum(keys, f) == f(k) + Sum(keys - {k}, f)
  {
    var first :| first in keys && Sum(keys, f) == f(first) + Sum(keys - {first}, f);
    if first != k {
      Extract(keys - {first}, f, k);
      Extract(keys - {k}, f, first);
      assert keys - {first} - {k} == keys - {k} - {first};
    }
  }

  lemma {:induction false} SameTerms(keys: set<string>, f: string -> real, g: string -> real)
    requires forall k :: k in keys ==> f(k) == g(k)
    ensures Sum(keys, f) == Sum(keys, g)
  {
    if keys != {} {
      var k :| k in keys;
      Extract(keys, f, k);
      Extract(keys, g, k);
      SameTerms(keys - {k}, f, g);
    }
  }

  /** One key's term changes, or is added. */
  lemma OneTerm(keys: set<string>, f: string -> real, g: string -> real, k: string)
    requires forall j :: j in keys && j != k ==> f(j) == g(j)
    ensures Sum(keys + {k}, g) == Sum(keys, f) + g(k) - if k in keys then f(k) else 0.0
  {
    Extract(keys + {k}, g, k);
    assert keys + {k} - {k} == keys - {k};
    SameTerms(keys - {k}, f, g);
    if k in keys {
      Extract(keys, f, k);
    } else {
      assert keys - {k} == keys;
    }
  }

  lemma {:induction false} AddTerms(keys: set<string>, f: string -> real, g: string -> real, h: string -> real)
    requires forall k :: k in keys ==> h(k) == f(k) + g(k)
    ensures Sum(keys, h) == Sum(keys, f) + Sum(keys, g)
  {
    if keys != {} {
      var k :| k in keys;
      Extract(keys, f, k);
      Extract(keys, g, k);
      Extract(keys, h, k);
      AddTerms(keys - {k}, f, g, h);
    }
  }

  lemma {:induction false} ZeroTerms(keys: set<string>, f: string -> real)
    requires forall k :: k in keys ==> f(k) == 0.0
    ensures Sum(keys, f) == 0.0
  {
    if keys != {} {
      var k :| k in keys;
      Extract(keys, f, k);
      ZeroTerms(keys - {k}, f);
    }
  }

  /** Keys whose terms are zero may be left out. */
  lemma {:induction false} LeaveOutZeros(few: set<string>, many: set<string>, f: string -> real)
    requires few <= many && forall k :: k in many - few ==> f(k) == 0.0
    ensures Sum(few, f) == Sum(many, f)
    decreases |many - few|
  {
    if forall k :: k in many ==> k in few {
      assert few == many;
    } else {
      var k :| k in many && k !in few;
      Extract(many, f, k);
      assert many - few == (many - {k} - few) + {k};
      LeaveOutZeros(few, many - {k}, f);
    }
  }
}
