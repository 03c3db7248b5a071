/**
 * The diamond comparison list shared by the storefront pages: at most four
 * diamonds, no diamond twice.
 */
module CompareContext {

  /** The listing fields the comparison view shows. */
  datatype Diamond = Diamond(
    id: string,
    name: string,
    carat: real,
    cut: string,
    color: string,
    clarity: string,
    price: real,
    image: string)

  const MaxCompare: nat := 4

  /** No two entries share an `_id`. */
  ghost predicate DistinctIds(s: seq<Diamond>) {
    forall i, j :: 0 <= i < j < |s| ==> s[i].id != s[j].id
  }

  /** `s.some(d => d._id === id)`, which is also what `!s.find(...)` tests
      the negation of. */
  function ContainsId(s: seq<Diamond>, id: string): (b: bool)
    ensures b <==> exists i :: 0 <= i < |s| && s[i].id == id
  {
    if s == [] then false
    else s[0].id == id || (assert forall i :: 0 < i < |s| ==> s[i] == s[1..][i - 1]; ContainsId(s[1..], id))
  }

  /** `s.filter(d => d._id !== id)`. */
  function WithoutId(s: seq<Diamond>, id: string): (r: seq<Diamond>)
    ensures |r| <= |s|
    ensures forall i :: 0 <= i < |r| ==> r[i].id != id && r[i] in s
  {
    if s == [] then []
    else if s[0].id == id then WithoutId(s[1..], id)
    else [s[0]] + WithoutId(s[1..], id)
  }

  /** Filtering works piece by piece, so the entries that stay keep their
      order. */
  lemma {:induction false} WithoutIdConcat(s: seq<Diamond>, t: seq<Diamond>, id: string)
    ensures WithoutId(s + t, id) == WithoutId(s, id) + WithoutId(t, id)
    decreases |s|
  {
    if s != [] {
      assert (s + t)[1..] == s[1..] + t;
      WithoutIdConcat(s[1..], t, id);
    } else {
      assert s + t == t;
    }
  }

  /** Every entry with another id stays. */
  lemma {:induction false} WithoutIdKeepsOthers(s: seq<Diamond>, id: string, i: nat)
    requires i < |s| && s[i].id != id
    ensures s[i] in WithoutId(s, id)
    decreases |s|
  {
    if i > 0 {
      WithoutIdKeepsOthers(s[1..], id, i - 1);
    }
  }

  /** Removing an id that is not in the list changes nothing. */
  lemma {:induction false} WithoutAbsentId(s: seq<Diamond>, id: string)
    requires !ContainsId(s, id)
    ensures WithoutId(s, id) == s
    decreases |s|
  {
    if s != [] {
      assert s[0].id != id;
      WithoutAbsentId(s[1..], id);
      assert s == [s[0]] + s[1..];
    }
  }

  lemma WithoutIdSplice(pre: seq<Diamond>, x: Diamond, post: seq<Diamond>)
    requires !ContainsId(pre, x.id) && !ContainsId(post, x.id)
    ensures WithoutId(pre + [x] + post, x.id) == pre + post
  {
    assert WithoutId([x], x.id) == [];
    WithoutAbsentId(pre, x.id);
    WithoutIdConcat(pre, [x], x.id);
    assert WithoutId(pre + [x], x.id) == pre;
    WithoutAbsentId(post, x.id);
    WithoutIdConcat(pre + [x], post, x.id);
  }

  /** In a list without repeated ids, removing the id of entry `k` removes
      exactly that entry. */
  lemma WithoutPresentId(s: seq<Diamond>, k: nat)
    requires DistinctIds(s) && k < |s|
    ensures WithoutId(s, s[k].id) == s[..k] + s[k + 1..]
  {
    var id, pre, post := s[k].id, s[..k], s[k + 1..];
    assert !ContainsId(pre, id) by {
      forall i | 0 <= i < |pre| ensures pre[i].id != id { assert pre[i] == s[i]; }
    }
    assert !ContainsId(post, id) by {
      forall i | 0 <= i < |post| ensures post[i].id != id { assert post[i] == s[k + 1 + i]; }
    }
    assert s == pre + [s[k]] + post;
    WithoutIdSplice(pre, s[k], post);
  }

  /** Removing entries never introduces a repeated id. */
  lemma {:induction false} WithoutIdDistinct(s: seq<Diamond>, id: string)
    requires DistinctIds(s)
    ensures DistinctIds(WithoutId(s, id))
    decreases |s|
  {
    if s != [] {
      var rest := WithoutId(s[1..], id);
      assert DistinctIds(s[1..]) by {
        forall i, j | 0 <= i < j < |s| - 1 ensures s[1..][i].id != s[1..][j].id {
          assert s[1..][i] == s[i + 1] && s[1..][j] == s[j + 1];
        }
      }
      WithoutIdDistinct(s[1..], id);
      if s[0].id != id {
        forall j | 0 <= j < |rest| ensures rest[j].id != s[0].id {
          assert rest[j] in s[1..];
          var m :| 0 <= m < |s[1..]| && s[1..][m] == rest[j];
          assert s[m + 1] == rest[j];
        }
        var r := [s[0]] + rest;
        forall i, j | 0 <= i < j < |r| ensures r[i].id != r[j].id {
          if i > 0 { assert r[i] == rest[i - 1] && r[j] == rest[j - 1]; }
          else { assert r[j] == rest[j - 1]; }
        }
      }
    }
  }

  /** The provider's `compareList` state with its four operations. */
  class CompareList {
    var items: seq<Diamond>

    ghost predicate Valid()
      reads this
    {
      |items| <= MaxCompare && DistinctIds(items)
    }

    constructor ()
      ensures Valid() && items == []
    {
      items := [];
    }

    /** `addToCompare`: a full list is left alone and the user is alerted
        (`alerted`); a diamond already in the list is not added again;
        otherwise it goes at the end. */
    method AddToCompare(d: Diamond) returns (alerted: bool)
      requires Valid()
      modifies this
      ensures Valid()
      ensures alerted <==> |old(items)| >= MaxCompare
      ensures alerted || ContainsId(old(items), d.id) ==> items == old(items)
      ensures !alerted && !ContainsId(old(items), d.id) ==> items == old(items) + [d]
    {
      if |items| >= MaxCompare {
        return true;
      }
      alerted := false;
      if !ContainsId(items, d.id) {
        items := items + [d];
      }
    }

    /** `removeFromCompare`: every entry with that id goes, the others stay
        in order. */
    method RemoveFromCompare(id: string)
      requires Valid()
      modifies this
      ensures Valid()
      ensures items == WithoutId(old(items), id)
      ensures !ContainsId(items, id)
      ensures |items| == if ContainsId(old(items), id) then |old(items)| - 1 else |old(items)|
    {
      WithoutIdDistinct(items, id);
      if ContainsId(items, id) {
        var k :| 0 <= k < |items| && items[k].id == id;
        WithoutPresentId(items, k);
      } else {
        WithoutAbsentId(items, id);
      }
      items := WithoutId(items, id);
    }

    /** `clearCompare`. */
    method ClearCompare()
      modifies this
      ensures Valid() && items == []
    {
      items := [];
    }

    /** `isInCompare`. */
    function IsInCompare(id: string): (b: bool)
      reads this
      ensures b <==> exists i :: 0 <= i < |items| && items[i].id == id
    {
      ContainsId(items, id)
    }
  }
}
