/**
  `URLSearchParams` as the list page uses it: an ordered list of name/value
  pairs (names may repeat), the lookups `has`, `get` and `getAll`, the updates
  `append` and `set`, and `toString`, which form-encodes each pair as
  `name=value` and joins the pairs with `&`. Below them sits the comparison the
  list page makes before it rewrites the address bar: both query strings are
  split at `&`, sorted and joined again, and the results are compared.
*/
module SearchParams {
  import opened Wrappers
  import Text
  import UrlEncoding
  import StringOrder

  /** Decoded name/value pairs, in order. */
  type Params = seq<(string, string)>

  /** `params.has(name)`. */
  predicate Has(p: Params, name: string)
  {
    exists i :: 0 <= i < |p| && p[i].0 == name
  }

  /** `params.get(name)`: the value of the first pair with that name, `None` for `null`. */
  function Get(p: Params, name: string): (r: Option<string>)
    ensures r.None? <==> !Has(p, name)
    ensures r.Some? ==> exists i :: 0 <= i < |p| && p[i] == (name, r.value) && forall j :: 0 <= j < i ==> p[j].0 != name
  {
    if |p| == 0 then None
    else if p[0].0 == name then Some(p[0].1)
    else
      var r := Get(p[1..], name);
      assert Has(p[1..], name) ==> Has(p, name) by {
        if Has(p[1..], name) { var i :| 0 <= i < |p[1..]| && p[1..][i].0 == name; assert p[i + 1].0 == name; }
      }
      assert Has(p, name) ==> Has(p[1..], name) by {
        if Has(p, name) { var i :| 0 <= i < |p| && p[i].0 == name; assert i > 0 && p[1..][i - 1].0 == name; }
      }
      if r.Some? then
        var i :| 0 <= i < |p[1..]| && p[1..][i] == (name, r.value) && forall j :: 0 <= j < i ==> p[1..][j].0 != name;
        assert p[i + 1] == (name, r.value);
        assert forall j :: 0 <= j < i + 1 ==> p[j].0 != name by {
          forall j | 0 <= j < i + 1 ensures p[j].0 != name { if j > 0 { assert p[j] == p[1..][j - 1]; } }
        }
        r
      else r
  }

  /** `params.getAll(name)`: the values of every pair with that name, in order. */
  function GetAll(p: Params, name: string): (r: seq<string>)
    ensures |r| <= |p|
  {
    if |p| == 0 then []
    else (if p[0].0 == name then [p[0].1] else []) + GetAll(p[1..], name)
  }

  lemma {:induction false} GetAllConcat(p: Params, q: Params, name: string)
    ensures GetAll(p + q, name) == GetAll(p, name) + GetAll(q, name)
  {
    if |p| > 0 {
      GetAllConcat(p[1..], q, name);
      assert (p + q)[1..] == p[1..] + q;
    } else {
      assert p + q == q;
    }
  }

  /** `getAll` finds a value exactly when `has` finds the name. */
  lemma {:induction false} GetAllEmpty(p: Params, name: string)
    ensures GetAll(p, name) == [] <==> !Has(p, name)
  {
    if |p| > 0 {
      GetAllEmpty(p[1..], name);
      if Has(p, name) && p[0].0 != name {
        var i :| 0 <= i < |p| && p[i].0 == name;
        assert p[1..][i - 1].0 == name;
      }
      if Has(p[1..], name) {
        var i :| 0 <= i < |p[1..]| && p[1..][i].0 == name;
        assert p[i + 1].0 == name;
      }
    }
  }

  /** `params.append(name, value)`. */
  function Append(p: Params, name: string, value: string): Params
  {
    p + [(name, value)]
  }

  /** The pairs whose name is not `name`. */
  function RemoveAll(p: Params, name: string): (r: Params)
    ensures GetAll(r, name) == []
    ensures forall other :: other != name ==> GetAll(r, other) == GetAll(p, other)
  {
    if |p| == 0 then []
    else if p[0].0 == name then RemoveAll(p[1..], name)
    else [p[0]] + RemoveAll(p[1..], name)
  }

  function SetFirst(p: Params, name: string, value: string): (r: Params)
    requires Has(p, name)
    ensures GetAll(r, name) == [value]
    ensures forall other :: other != name ==> GetAll(r, other) == GetAll(p, other)
  {
    if p[0].0 == name then [(name, value)] + RemoveAll(p[1..], name)
    else
      assert Has(p[1..], name) by {
        var i :| 0 <= i < |p| && p[i].0 == name;
        assert p[1..][i - 1].0 == name;
      }
      [p[0]] + SetFirst(p[1..], name, value)
  }

  /**
    `params.set(name, value)`: the first pair with that name takes the value
    and the others with that name go; without such a pair, one is appended.
    Afterwards `name` has exactly `value`, and every other name keeps its values.
  */
  function Set(p: Params, name: string, value: string): (r: Params)
    ensures GetAll(r, name) == [value]
    ensures forall other :: other != name ==> GetAll(r, other) == GetAll(p, other)
  {
    if Has(p, name) then SetFirst(p, name, value)
    else
      GetAllEmpty(p, name);
      assert forall other :: GetAll(p + [(name, value)], other) == GetAll(p, other) + GetAll([(name, value)], other) by {
        forall other { GetAllConcat(p, [(name, value)], other); }
      }
      p + [(name, value)]
  }

  // ---------------------------------------------------------------------------
  // toString

  /** `name=value`, each side form-encoded. */
  function EncodePair(pair: (string, string)): string
  {
    UrlEncoding.FormEncode(pair.0) + "=" + UrlEncoding.FormEncode(pair.1)
  }

  /** Each pair's encoding, in order. */
  function EncodedPairs(p: Params): (r: seq<string>)
    ensures |r| == |p|
    ensures forall i :: 0 <= i < |p| ==> r[i] == EncodePair(p[i])
  {
    if |p| == 0 then [] else [EncodePair(p[0])] + EncodedPairs(p[1..])
  }

  /** `params.toString()`. */
  function Serialize(p: Params): string
  {
    Text.Join(EncodedPairs(p), "&")
  }

  /** `str.split('&').sort().join('&')`, the order-insensitive form of a query string. */
  function Normalize(s: string): string
  {
    Text.Join(StringOrder.Sort(Text.Split(s, '&')), "&")
  }

  /** Whether the address bar is rewritten: the normalised query strings differ. */
  predicate ShouldReplace(next: Params, current: Params)
  {
    Normalize(Serialize(next)) != Normalize(Serialize(current))
  }

  // ---------------------------------------------------------------------------
  // the comparison is "same pairs, in any order"

  lemma EncodePairShape(pair: (string, string))
    ensures '&' !in EncodePair(pair) && EncodePair(pair) != ""
  {
    UrlEncoding.EncodeAvoidsDelimiters(pair.0, UrlEncoding.Form);
    UrlEncoding.EncodeAvoidsDelimiters(pair.1, UrlEncoding.Form);
    assert '=' in EncodePair(pair);
  }

  lemma EncodePairInjective(x: (string, string), y: (string, string))
    requires EncodePair(x) == EncodePair(y)
    ensures x == y
  {
    var f := UrlEncoding.Form;
    UrlEncoding.EncodeAvoidsDelimiters(x.0, f);
    UrlEncoding.EncodeAvoidsDelimiters(y.0, f);
    Text.SplitAtMark(UrlEncoding.FormEncode(x.0), UrlEncoding.FormEncode(x.1),
                     UrlEncoding.FormEncode(y.0), UrlEncoding.FormEncode(y.1), '=');
    UrlEncoding.EncodeInjective(x.0, y.0, f);
    UrlEncoding.EncodeInjective(x.1, y.1, f);
  }

  /** The pieces `split('&')` finds in a serialised list. */
  function Pieces(p: Params): seq<string>
  {
    if |p| == 0 then [""] else EncodedPairs(p)
  }

  lemma SplitSerialized(p: Params)
    ensures Text.Split(Serialize(p), '&') == Pieces(p)
    ensures forall i :: 0 <= i < |Pieces(p)| ==> '&' !in Pieces(p)[i]
  {
    forall i | 0 <= i < |p| ensures '&' !in EncodedPairs(p)[i] { EncodePairShape(p[i]); }
    if |p| > 0 {
      Text.SplitJoin(EncodedPairs(p), '&');
    }
  }

  lemma EncodedConcat(a: Params, b: Params)
    ensures EncodedPairs(a + b) == EncodedPairs(a) + EncodedPairs(b)
  {
  }

  /** For each pair, its encoding occurs in the encoded list as often as the pair occurs in the list. */
  lemma {:induction false} EncodedCount(p: Params, x: (string, string))
    ensures multiset(EncodedPairs(p))[EncodePair(x)] == multiset(p)[x]
  {
    if |p| > 0 {
      EncodedCount(p[1..], x);
      var e, y := EncodePair(x), p[0];
      assert multiset(EncodedPairs(p)) == multiset{EncodePair(y)} + multiset(EncodedPairs(p[1..]));
      assert multiset(p) == multiset{y} + multiset(p[1..]) by { assert p == [y] + p[1..]; }
      if EncodePair(y) == e {
        EncodePairInjective(y, x);
      }
    }
  }

  /** Rearranging the pairs rearranges their encodings. */
  lemma {:induction false} EncodedPermutation(a: Params, b: Params)
    requires multiset(a) == multiset(b)
    ensures multiset(EncodedPairs(a)) == multiset(EncodedPairs(b))
    decreases |a|
  {
    if |a| == 0 {
      assert |b| == |multiset(b)| == 0;
    } else {
      var x := a[0];
      assert x in multiset(b);
      var j :| 0 <= j < |b| && b[j] == x;
      var b1, b2 := b[..j], b[j + 1..];
      assert b == b1 + [x] + b2;
      assert a == [x] + a[1..];
      assert multiset(b1 + b2) == multiset(b) - multiset{x};
      assert multiset(a[1..]) == multiset(a) - multiset{x};
      EncodedPermutation(a[1..], b1 + b2);
      EncodedConcat(b1 + [x], b2);
      EncodedConcat(b1, [x]);
      EncodedConcat(b1, b2);
      EncodedConcat([x], a[1..]);
    }
  }

  /** The empty piece stands for the empty list: no encoded pair is empty. */
  lemma EmptyPiece(p: Params)
    ensures multiset(Pieces(p))[""] > 0 <==> |p| == 0
  {
    if |p| > 0 {
      forall i | 0 <= i < |p| ensures EncodedPairs(p)[i] != "" { EncodePairShape(p[i]); }
      assert "" !in EncodedPairs(p);
    } else {
      assert Pieces(p) == [""];
    }
  }

  lemma PiecesAlike(a: Params, b: Params)
    ensures multiset(Pieces(a)) == multiset(Pieces(b)) <==> multiset(a) == multiset(b)
  {
    if multiset(a) == multiset(b) {
      assert |b| == |multiset(b)| == |multiset(a)| == |a|;
      if |a| > 0 {
        EncodedPermutation(a, b);
      }
    }
    if multiset(Pieces(a)) == multiset(Pieces(b)) {
      EmptyPiece(a);
      EmptyPiece(b);
      assert |a| == 0 <==> |b| == 0;
      if |a| > 0 {
        forall x ensures multiset(a)[x] == multiset(b)[x] {
          EncodedCount(a, x);
          EncodedCount(b, x);
        }
        assert multiset(a) == multiset(b);
      }
    }
  }

  /** Every piece of a sorted arrangement comes from the original pieces. */
  lemma SortedPieces(p: Params)
    ensures |StringOrder.Sort(Pieces(p))| >= 1
    ensures forall i :: 0 <= i < |StringOrder.Sort(Pieces(p))| ==> '&' !in StringOrder.Sort(Pieces(p))[i]
  {
    var s := Pieces(p);
    var t := StringOrder.Sort(s);
    SplitSerialized(p);
    assert |t| == |multiset(t)| == |multiset(s)| == |s|;
    forall i | 0 <= i < |t| ensures '&' !in t[i] {
      assert t[i] in multiset(s);
      var k :| 0 <= k < |s| && s[k] == t[i];
    }
  }

  /**
    The address bar is rewritten exactly when the new pairs are not a
    rearrangement of the current ones.
  */
  lemma ShouldReplaceIffNotRearranged(next: Params, current: Params)
    ensures ShouldReplace(next, current) <==> multiset(next) != multiset(current)
  {
    SplitSerialized(next);
    SplitSerialized(current);
    SortedPieces(next);
    SortedPieces(current);
    Text.JoinInjective(StringOrder.Sort(Pieces(next)), StringOrder.Sort(Pieces(current)), '&');
    StringOrder.SortEqual(Pieces(next), Pieces(current));
    PiecesAlike(next, current);
  }
}
