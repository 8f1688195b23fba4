/** Option and Result values, and the order of strings, shared by the other modules. */
module Prelude {
  datatype Option<+T> = None | Some(value: T)

  datatype Result<+T, +E> = Ok(value: T) | Err(error: E)

  /** JavaScript truth of a nullable string column: NULL and "" are both false. */
  predicate Truthy(column: Option<string>) {
    column.Some? && column.value != ""
  }

  lemma TruthyIsNonBlank(column: Option<string>)
    ensures Truthy(column) <==> column != None && column != Some("")
  {
  }

  /** The order in which sort() puts strings. */
  predicate Less(a: string, b: string) {
    if b == "" then false
    else if a == "" then true
    else a[0] < b[0] || (a[0] == b[0] && Less(a[1..], b[1..]))
  }

  /** Lexicographic: at the first difference the smaller character, or the end, comes first. */
  lemma {:induction false} LessIsLexicographic(a: string, b: string)
    ensures Less(a, b) <==>
      exists k :: 0 <= k <= |a| && k < |b| && a[..k] == b[..k] && (k == |a| || a[k] < b[k])
  {
    if b == "" {
    } else if a == "" {
      assert a[..0] == b[..0];
    } else if a[0] == b[0] {
      var x, y := a[1..], b[1..];
      LessIsLexicographic(x, y);
      if Less(x, y) {
        var k :| 0 <= k <= |x| && k < |y| && x[..k] == y[..k] && (k == |x| || x[k] < y[k]);
        assert a[..k + 1] == [a[0]] + x[..k] && b[..k + 1] == [b[0]] + y[..k];
      }
      if k :| 0 <= k <= |a| && k < |b| && a[..k] == b[..k] && (k == |a| || a[k] < b[k]) {
        assert k > 0;
        assert x[..k - 1] == a[..k][1..] && y[..k - 1] == b[..k][1..];
        assert 0 <= k - 1 <= |x| && k - 1 < |y| && x[..k - 1] == y[..k - 1];
      }
    } else {
      assert a[..0] == b[..0];
      if k :| 0 <= k <= |a| && k < |b| && a[..k] == b[..k] && (k == |a| || a[k] < b[k]) {
        assert k > 0 ==> a[..k][0] == b[..k][0];
      }
    }
  }

  lemma {:induction false} LessIsStrict(a: string, b: string)
    ensures !(Less(a, b) && Less(b, a))
    ensures !Less(a, b) && !Less(b, a) ==> a == b
    ensures !Less(a, a)
  {
    if a != "" && b != "" {
      LessIsStrict(a[1..], b[1..]);
      LessIsStrict(a[1..], a[1..]);
      assert a == [a[0]] + a[1..] && b == [b[0]] + b[1..];
    } else if a != "" {
      LessIsStrict(a[1..], a[1..]);
    }
  }

  lemma {:induction false} LessIsTransitive(a: string, b: string, c: string)
    requires Less(a, b) && Less(b, c)
    ensures Less(a, c)
  {
    if a != "" && a[0] == b[0] == c[0] {
      LessIsTransitive(a[1..], b[1..], c[1..]);
    }
  }

  function Elements(s: seq<string>): set<string> {
    set x | x in s
  }

  predicate Ascending(s: seq<string>) {
    forall i, j | 0 <= i < j < |s| :: Less(s[i], s[j])
  }

  /** Places `id` before the first greater one. */
  function Placed(sorted: seq<string>, id: string): (r: seq<string>)
    requires Ascending(sorted) && id !in sorted
    ensures Ascending(r) && forall x :: x in r <==> x == id || x in sorted
  {
    if sorted == [] then [id]
    else
      LessIsStrict(id, sorted[0]);
      assert sorted == [sorted[0]] + sorted[1..];
      if Less(id, sorted[0]) then
        assert forall k | 0 < k < |sorted| :: Less(id, sorted[k]) by {
          forall k | 0 < k < |sorted| ensures Less(id, sorted[k]) {
            LessIsTransitive(id, sorted[0], sorted[k]);
          }
        }
        [id] + sorted
      else
        var rest := Placed(sorted[1..], id);
        assert forall k | 0 <= k < |rest| :: Less(sorted[0], rest[k]) by {
          forall k | 0 <= k < |rest| ensures Less(sorted[0], rest[k]) {
            assert rest[k] in rest;
          }
        }
        [sorted[0]] + rest
  }

  method SortedIds(ids: set<string>) returns (sorted: seq<string>)
    ensures Ascending(sorted) && Elements(sorted) == ids
  {
    sorted := [];
    var rest := ids;
    while rest != {}
      invariant Ascending(sorted) && rest <= ids && Elements(sorted) == ids - rest
      decreases rest
    {
      var id :| id in rest;
      assert id !in Elements(sorted);
      ghost var was := sorted;
      sorted := Placed(sorted, id);
      assert Elements(sorted) == Elements(was) + {id};
      rest := rest - {id};
    }
  }
}
