/**
 * The record shapes of the storefront (src/types/Objects.ts) and the small
 * sequence vocabulary every other module is written in: filtering a table,
 * finding the first matching row, rewriting the rows that match, and the
 * "pairwise" shape of the per-table invariants.
 */
module Objects {

  datatype Option<T> = None | Some(value: T)

  datatype Product = Product(id: int, name: string, price: int, categoryId: int, image: string)
  datatype Category = Category(id: int, name: string)
  datatype User = User(id: int, username: string, password: string, role: string)
  /** `totalPrice` is SQL NULL (None) until checkout writes it. */
  datatype Order = Order(id: int, status: string, qty: int, totalPrice: Option<int>, productId: int, userId: int)

  // Order statuses are the literal lower-case strings stored in the `status` column.
  const Cart: string := "cart"
  const Pending: string := "pending"
  const Confirmed: string := "confirmed"
  const Shipping: string := "shipping"
  const Completed: string := "completed"
  const Cancelled: string := "cancelled"

  /** The five statuses an order can have after checkout, in tab order. */
  const FulfilmentStatuses: seq<string> := [Pending, Confirmed, Shipping, Completed, Cancelled]

  const AdminRole: string := "admin"
  const UserRole: string := "user"

  /** JavaScript truthiness of a nullable number: null and 0 are falsy. */
  predicate Truthy(n: Option<int>) {
    n.Some? && n.value != 0
  }

  // ---------------------------------------------------------------------------
  // Filtering, defined from the end so that a loop over s[..i] unfolds one step.

  function Filter<T(!new)>(s: seq<T>, p: T -> bool): (r: seq<T>)
    ensures |r| <= |s|
    ensures forall x :: x in r <==> x in s && p(x)
    decreases |s|
  {
    if s == [] then []
    else
      var init, last := s[..|s| - 1], s[|s| - 1];
      assert s == init + [last];
      Filter(init, p) + (if p(last) then [last] else [])
  }

  /** Filtering keeps every row when every row passes. */
  lemma {:induction false} FilterKeepsAll<T(!new)>(s: seq<T>, p: T -> bool)
    requires forall i :: 0 <= i < |s| ==> p(s[i])
    ensures Filter(s, p) == s
    decreases |s|
  {
    if s != [] {
      FilterKeepsAll(s[..|s| - 1], p);
      assert s == s[..|s| - 1] + [s[|s| - 1]];
    }
  }

  /** Filtering distributes over concatenation: the filter keeps the rows' order. */
  lemma {:induction false} FilterConcat<T(!new)>(a: seq<T>, b: seq<T>, p: T -> bool)
    ensures Filter(a + b, p) == Filter(a, p) + Filter(b, p)
    decreases |b|
  {
    if b == [] {
      assert a + b == a;
    } else {
      var b' := b[..|b| - 1];
      assert (a + b)[..|a + b| - 1] == a + b';
      FilterConcat(a, b', p);
    }
  }

  /** Filtering keeps nothing when no row passes. */
  lemma FilterDropsAll<T(!new)>(s: seq<T>, p: T -> bool)
    requires forall i :: 0 <= i < |s| ==> !p(s[i])
    ensures Filter(s, p) == []
  {
    assert forall x :: x in s ==> !p(x);
  }

  /** Filtering out one row that fails, between rows that all pass, removes exactly that row. */
  lemma {:induction false} FilterDropsOne<T(!new)>(before: seq<T>, x: T, after: seq<T>, p: T -> bool)
    requires forall i :: 0 <= i < |before| ==> p(before[i])
    requires forall i :: 0 <= i < |after| ==> p(after[i])
    requires !p(x)
    ensures Filter(before + [x] + after, p) == before + after
  {
    FilterKeepsAll(before, p);
    FilterKeepsAll(after, p);
    assert Filter([x], p) == [] by {
      assert [x][..0] == [];
    }
    FilterConcat(before, [x], p);
    assert Filter(before + [x], p) == before;
    FilterConcat(before + [x], after, p);
  }

  /** The first row a filter keeps is the first row of the table that passes. */
  lemma {:induction false} FilterFirst<T(!new)>(s: seq<T>, p: T -> bool)
    requires |Filter(s, p)| > 0
    ensures FindIndex(s, p) < |s| && Filter(s, p)[0] == s[FindIndex(s, p)]
    decreases |s|
  {
    var head, rest := s[..1], s[1..];
    assert s == head + rest;
    FilterConcat(head, rest, p);
    assert head == [] + [s[0]];
    if !p(s[0]) {
      FilterFirst(rest, p);
    }
  }

  // ---------------------------------------------------------------------------
  // Pairwise relations: the shape of "ids strictly increase" and "no two cart
  // rows share a product and a user".

  ghost predicate Pairwise<T>(s: seq<T>, R: (T, T) -> bool) {
    forall i, j :: 0 <= i < j < |s| ==> R(s[i], s[j])
  }

  /** Filtering a table keeps every pairwise invariant it had. */
  lemma {:induction false} FilterPairwise<T(!new)>(s: seq<T>, p: T -> bool, R: (T, T) -> bool)
    requires Pairwise(s, R)
    ensures Pairwise(Filter(s, p), R)
    decreases |s|
  {
    if s != [] {
      var init, last := s[..|s| - 1], s[|s| - 1];
      assert Pairwise(init, R);
      FilterPairwise(init, p, R);
      var f := Filter(init, p);
      if p(last) {
        forall i | 0 <= i < |f| ensures R(f[i], last) {
          assert f[i] in init;
          var k :| 0 <= k < |init| && init[k] == f[i];
          assert s[k] == f[i];
        }
        PairwiseSnoc(f, last, R);
      }
    }
  }

  /** Appending a row keeps a pairwise invariant when the row relates to every earlier one. */
  lemma PairwiseSnoc<T>(s: seq<T>, x: T, R: (T, T) -> bool)
    requires Pairwise(s, R)
    requires forall i :: 0 <= i < |s| ==> R(s[i], x)
    ensures Pairwise(s + [x], R)
  {
    var t := s + [x];
    forall i, j | 0 <= i < j < |t| ensures R(t[i], t[j]) {
      if j < |s| {
        assert t[i] == s[i] && t[j] == s[j];
      }
    }
  }

  // ---------------------------------------------------------------------------
  // Finding the first row that matches (JavaScript `Array.prototype.find`).

  function FindIndex<T>(s: seq<T>, p: T -> bool): (k: nat)
    ensures k <= |s|
    ensures forall j :: 0 <= j < k ==> !p(s[j])
    ensures k < |s| ==> p(s[k])
    decreases |s|
  {
    if s == [] then 0
    else if p(s[0]) then 0
    else
      var k := FindIndex(s[1..], p);
      assert forall j :: 1 <= j < k + 1 ==> s[j] == s[1..][j - 1];
      k + 1
  }

  function Find<T(!new)>(s: seq<T>, p: T -> bool): (r: Option<T>)
    ensures r.None? <==> forall x :: x in s ==> !p(x)
    ensures r.Some? ==> r.value in s && p(r.value)
    ensures r.Some? <==> FindIndex(s, p) < |s|
    ensures r.Some? ==> r.value == s[FindIndex(s, p)]
  {
    var k := FindIndex(s, p);
    if k < |s| then Some(s[k])
    else
      assert forall x :: x in s ==> !p(x) by {
        forall x | x in s ensures !p(x) {
          var j :| 0 <= j < |s| && s[j] == x;
        }
      }
      None
  }

  function FindProduct(products: seq<Product>, id: int): (r: Option<Product>)
    ensures r.Some? ==> r.value in products && r.value.id == id
    ensures r.None? <==> forall p :: p in products ==> p.id != id
  {
    Find(products, (p: Product) => p.id == id)
  }

  function FindCategory(categories: seq<Category>, id: int): (r: Option<Category>)
    ensures r.Some? ==> r.value in categories && r.value.id == id
    ensures r.None? <==> forall c :: c in categories ==> c.id != id
  {
    Find(categories, (c: Category) => c.id == id)
  }

  // ---------------------------------------------------------------------------
  // Rewriting the rows that match (SQL `UPDATE ... WHERE`, JavaScript `map`).

  function MapWhere<T>(s: seq<T>, m: T -> bool, f: T -> T): (r: seq<T>)
    ensures |r| == |s|
    ensures forall i :: 0 <= i < |s| && !m(s[i]) ==> r[i] == s[i]
    ensures forall i :: 0 <= i < |s| && m(s[i]) ==> r[i] == f(s[i])
  {
    seq(|s|, i requires 0 <= i < |s| => if m(s[i]) then f(s[i]) else s[i])
  }

  /** A rewrite keeps a pairwise invariant when the rewritten row relates as the original did. */
  lemma MapWherePairwise<T>(s: seq<T>, m: T -> bool, f: T -> T, R: (T, T) -> bool)
    requires Pairwise(s, R)
    requires forall a, b :: R(a, b) ==> R(f(a), b) && R(a, f(b)) && R(f(a), f(b))
    ensures Pairwise(MapWhere(s, m, f), R)
  {
    var r := MapWhere(s, m, f);
    forall i, j | 0 <= i < j < |r| ensures R(r[i], r[j]) {
      assert R(s[i], s[j]);
    }
  }

  /** A rewrite that no row matches changes nothing. */
  lemma MapWhereNoMatch<T>(s: seq<T>, m: T -> bool, f: T -> T)
    requires forall x :: x in s ==> !m(x)
    ensures MapWhere(s, m, f) == s
  {
    var r := MapWhere(s, m, f);
    forall i | 0 <= i < |s| ensures r[i] == s[i] {
      assert s[i] in s;
    }
  }

  // ---------------------------------------------------------------------------
  // "Next id = last id + 1", used by the sign-up and product screens and by
  // SQLite for an INTEGER PRIMARY KEY given no value.

  function NextId<T>(rows: seq<T>, key: T -> int): (r: int)
    ensures rows == [] ==> r == 1
    ensures rows != [] ==> r == key(rows[|rows| - 1]) + 1
  {
    if |rows| > 0 then key(rows[|rows| - 1]) + 1 else 1
  }

  ghost predicate KeysIncrease<T>(rows: seq<T>, key: T -> int) {
    forall i, j :: 0 <= i < j < |rows| ==> key(rows[i]) < key(rows[j])
  }

  /** On a table ordered by id, "last id + 1" is larger than every id, hence unused. */
  lemma NextIdFresh<T>(rows: seq<T>, key: T -> int)
    requires KeysIncrease(rows, key)
    ensures forall i :: 0 <= i < |rows| ==> key(rows[i]) < NextId(rows, key)
  {
    forall i | 0 <= i < |rows| ensures key(rows[i]) < NextId(rows, key) {
      if i < |rows| - 1 {
        assert key(rows[i]) < key(rows[|rows| - 1]);
      }
    }
  }

  // ---------------------------------------------------------------------------
  // Strings.

  /** ASCII lower-casing (String.prototype.toLowerCase on the status strings). */
  function Lower(s: string): (r: string)
    ensures |r| == |s|
    ensures forall i :: 0 <= i < |s| ==> r[i] == LowerChar(s[i])
  {
    seq(|s|, i requires 0 <= i < |s| => LowerChar(s[i]))
  }

  function LowerChar(c: char): (d: char)
    ensures !('A' <= d <= 'Z')
    ensures !('A' <= c <= 'Z') ==> d == c
  {
    if 'A' <= c <= 'Z' then (c as int - 'A' as int + 'a' as int) as char else c
  }

  predicate IsLowerCase(s: string) {
    forall i :: 0 <= i < |s| ==> !('A' <= s[i] <= 'Z')
  }

  lemma LowerOfLowerCase(s: string)
    requires IsLowerCase(s)
    ensures Lower(s) == s
  {
  }

  /**
   * JavaScript's `.length`: the number of UTF-16 code units, two for a
   * character outside the Basic Multilingual Plane (a surrogate pair), one
   * for any other.
   */
  function Utf16Length(s: string): (n: nat)
    ensures |s| <= n <= 2 * |s|
    decreases |s|
  {
    if s == [] then 0
    else Utf16Length(s[..|s| - 1]) + (if s[|s| - 1] as int >= 0x1_0000 then 2 else 1)
  }

  /** On text inside the Basic Multilingual Plane `.length` counts characters. */
  lemma {:induction false} Utf16LengthOfBmp(s: string)
    requires forall i :: 0 <= i < |s| ==> (s[i] as int) < 0x1_0000
    ensures Utf16Length(s) == |s|
    decreases |s|
  {
    if s != [] {
      Utf16LengthOfBmp(s[..|s| - 1]);
    }
  }

  /** `k` occurs in `s` as a contiguous piece, character for character. */
  predicate Contains(s: string, k: string)
    decreases |s|
  {
    k <= s || (s != [] && Contains(s[1..], k))
  }

  /**
   * SQLite's `LIKE` with no ESCAPE clause: in the pattern `%` matches any run
   * of characters, `_` exactly one character, and any other character matches
   * itself up to ASCII case.
   */
  predicate Like(s: string, pattern: string)
    decreases |pattern|, |s|
  {
    if pattern == [] then s == []
    else if pattern[0] == '%' then Like(s, pattern[1..]) || (s != [] && Like(s[1..], pattern))
    else s != [] && (pattern[0] == '_' || LowerChar(s[0]) == LowerChar(pattern[0])) && Like(s[1..], pattern[1..])
  }

  /** A lone `%` matches every text. */
  lemma {:induction false} LikePercent(s: string)
    ensures Like(s, "%")
    decreases |s|
  {
    if s != [] {
      LikePercent(s[1..]);
    }
  }

  /** A text that starts with `k` matches the pattern `k%`. */
  lemma {:induction false} LikePrefix(s: string, k: string)
    requires k <= s
    ensures Like(s, k + "%")
    decreases |k|
  {
    if k == [] {
      assert k + "%" == "%";
      LikePercent(s);
    } else {
      assert (k + "%")[1..] == k[1..] + "%";
      LikePrefix(s[1..], k[1..]);
      if k[0] == '%' {
        assert Like(s[1..], "%" + (k[1..] + "%"));
        assert k + "%" == "%" + (k[1..] + "%");
      }
    }
  }

  /** Every literal occurrence of `k` is a `LIKE '%k%'` match. */
  lemma {:induction false} ContainsIsLike(s: string, k: string)
    requires Contains(s, k)
    ensures Like(s, "%" + k + "%")
    decreases |s|
  {
    assert ("%" + k + "%")[1..] == k + "%";
    if k <= s {
      LikePrefix(s, k);
    } else {
      ContainsIsLike(s[1..], k);
    }
  }

  /** A text that starts with `k` up to ASCII case matches `k%` when `k` holds no `%`. */
  lemma {:induction false} LikeFoldedPrefix(s: string, k: string)
    requires '%' !in k
    requires |k| <= |s| && Lower(k) == Lower(s[..|k|])
    ensures Like(s, k + "%")
    decreases |k|
  {
    if k == [] {
      assert k + "%" == "%";
      LikePercent(s);
    } else {
      assert (k + "%")[1..] == k[1..] + "%";
      assert LowerChar(k[0]) == Lower(k)[0] == Lower(s[..|k|])[0] == LowerChar(s[0]);
      assert Lower(k[1..]) == Lower(s[1..][..|k| - 1]) by {
        forall i | 0 <= i < |k| - 1 ensures Lower(k[1..])[i] == Lower(s[1..][..|k| - 1])[i] {
          assert Lower(k)[i + 1] == Lower(s[..|k|])[i + 1];
        }
      }
      LikeFoldedPrefix(s[1..], k[1..]);
    }
  }

  /** `LIKE '%k%'` folds ASCII case: an occurrence of `k` in `s`, both lower-cased, is a match. */
  lemma {:induction false} ContainsFoldedIsLike(s: string, k: string)
    requires '%' !in k
    requires Contains(Lower(s), Lower(k))
    ensures Like(s, "%" + k + "%")
    decreases |s|
  {
    assert ("%" + k + "%")[1..] == k + "%";
    if Lower(k) <= Lower(s) {
      assert Lower(k) == Lower(s[..|k|]);
      LikeFoldedPrefix(s, k);
    } else {
      assert Lower(s)[1..] == Lower(s[1..]);
      ContainsFoldedIsLike(s[1..], k);
    }
  }

  /** `_` is a wildcard: `LIKE '%_%'` holds exactly for the non-empty texts. */
  lemma LikeUnderscore(s: string)
    ensures Like(s, "%_%") <==> s != []
  {
    assert "%_%"[1..] == "_%";
    assert "_%"[1..] == "%";
    if s != [] {
      LikePercent(s[1..]);
    }
  }

  /**
   * A keyword whose first character is neither a wildcard nor an ASCII letter,
   * and does not occur in `s`, makes `LIKE '%k%'` fail on `s`.
   */
  lemma {:induction false} LikeNeedsFirstChar(s: string, c: char, rest: string)
    requires c != '%' && c != '_' && !('A' <= c <= 'Z') && !('a' <= c <= 'z')
    requires c !in s
    ensures !Like(s, "%" + [c] + rest)
    decreases |s|
  {
    assert ("%" + [c] + rest)[1..] == [c] + rest;
    assert ([c] + rest)[1..] == rest;
    if s != [] {
      assert LowerChar(s[0]) != LowerChar(c);
      LikeNeedsFirstChar(s[1..], c, rest);
    }
  }
}
