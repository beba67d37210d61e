/** Result types and facts about sequences and finite sets used throughout. */
module Common {

  datatype Option<+T> = None | Some(value: T)

  datatype Result<+T, +E> = Ok(value: T) | Err(error: E)

  predicate NoDup<T(==)>(s: seq<T>) {
    forall i, j :: 0 <= i < j < |s| ==> s[i] != s[j]
  }

  function Elems<T>(s: seq<T>): set<T> {
    set x | x in s
  }

  function IndexOf<T(==)>(s: seq<T>, x: T): (i: nat)
    requires x in s
    ensures i < |s| && s[i] == x && x !in s[..i]
  {
    if s[0] == x then 0 else 1 + IndexOf(s[1..], x)
  }

  lemma CardElems<T>(s: seq<T>)
    ensures |Elems(s)| <= |s|
    ensures NoDup(s) <==> |Elems(s)| == |s|
  {
    if s != [] {
      var t := s[..|s| - 1];
      CardElems(t);
      assert Elems(s) == Elems(t) + {s[|s| - 1]};
      if NoDup(s) {
        assert s[|s| - 1] !in t;
        assert NoDup(t);
      } else if NoDup(t) {
        assert s[|s| - 1] in t;
      }
    }
  }

  lemma CardSubset<T>(a: set<T>, b: set<T>)
    requires a <= b
    ensures |a| <= |b|
    ensures |a| == |b| ==> a == b
  {
    assert b == a + (b - a);
    assert |b| == |a| + |b - a|;
  }

  lemma AppendFresh<T>(p: seq<T>, m: T)
    requires NoDup(p) && m !in p
    ensures NoDup(p + [m]) && Elems(p + [m]) == Elems(p) + {m}
  {
  }

  lemma ElemsOneMore<T>(s: seq<T>, i: nat)
    requires i < |s|
    ensures Elems(s[..i + 1]) == Elems(s[..i]) + {s[i]}
  {
    assert s[..i + 1] == s[..i] + [s[i]];
  }

  lemma LastIsFresh<T>(p: seq<T>, x: T)
    requires NoDup(p + [x])
    ensures x !in p && NoDup(p)
  {
    var q := p + [x];
    forall i | 0 <= i < |p|
      ensures p[i] != x
    {
      assert q[i] != q[|p|];
    }
    forall i, j | 0 <= i < j < |p|
      ensures p[i] != p[j]
    {
      assert q[i] != q[j];
    }
  }

  lemma HeadIsFresh<T>(a: seq<T>, b: seq<T>)
    requires NoDup(a + b) && b != []
    ensures b[0] !in a
  {
    forall i | 0 <= i < |a|
      ensures a[i] != b[0]
    {
      assert (a + b)[i] != (a + b)[|a|];
    }
  }
}
