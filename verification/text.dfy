/** Strings as the services use them: trimming, byte order, sorting and joining.
    Strings are sequences of code points; for valid UTF-8 the byte order used by
    sort.Strings and by `<` is the code-point order used here. */
module Text {

  /** The white space removed by strings.TrimSpace. */
  predicate IsSpace(c: char) {
    || '\t' <= c <= '\r'
    || c == ' '
    || c == '\U{85}'
    || c == '\U{A0}'
    || c == '\U{1680}'
    || '\U{2000}' <= c <= '\U{200A}'
    || c == '\U{2028}'
    || c == '\U{2029}'
    || c == '\U{202F}'
    || c == '\U{205F}'
    || c == '\U{3000}'
  }

  function TrimLeft(s: string): string {
    if s != "" && IsSpace(s[0]) then TrimLeft(s[1..]) else s
  }

  function TrimRight(s: string): string {
    if s != "" && IsSpace(s[|s| - 1]) then TrimRight(s[..|s| - 1]) else s
  }

  function Trim(s: string): string {
    TrimRight(TrimLeft(s))
  }

  predicate Blank(s: string) {
    Trim(s) == ""
  }

  /** No white space at either end. */
  predicate Trimmed(s: string) {
    s != "" ==> !IsSpace(s[0]) && !IsSpace(s[|s| - 1])
  }

  lemma {:induction false} TrimLeftEnds(s: string)
    ensures var t := TrimLeft(s); |t| <= |s| && t == s[|s| - |t|..] && (t != "" ==> !IsSpace(t[0]))
  {
    if s != "" && IsSpace(s[0]) {
      TrimLeftEnds(s[1..]);
    }
  }

  lemma {:induction false} TrimRightEnds(s: string)
    ensures var t := TrimRight(s); |t| <= |s| && t == s[..|t|] && (t != "" ==> !IsSpace(t[|t| - 1]))
  {
    if s != "" && IsSpace(s[|s| - 1]) {
      TrimRightEnds(s[..|s| - 1]);
    }
  }

  /** Trimming leaves a trimmed string, and trimmed strings are its fixed points. */
  lemma TrimIsTrimmed(s: string)
    ensures Trimmed(Trim(s))
    ensures Trimmed(s) ==> Trim(s) == s
    ensures Trim(Trim(s)) == Trim(s)
  {
    TrimLeftEnds(s);
    TrimRightEnds(TrimLeft(s));
  }

  /** A string whose first character is not white space is not blank. */
  lemma NotBlank(s: string)
    requires s != "" && !IsSpace(s[0])
    ensures !Blank(s)
  {
    TrimRightKeepsHead(s);
  }

  lemma {:induction false} TrimRightKeepsHead(s: string)
    requires s != "" && !IsSpace(s[0])
    ensures TrimRight(s) != "" && TrimRight(s)[0] == s[0]
  {
    if IsSpace(s[|s| - 1]) {
      TrimRightKeepsHead(s[..|s| - 1]);
    }
  }

  predicate LessEq(a: string, b: string) {
    a == "" || (b != "" && (a[0] < b[0] || (a[0] == b[0] && LessEq(a[1..], b[1..]))))
  }

  predicate Less(a: string, b: string) {
    LessEq(a, b) && a != b
  }

  lemma {:induction false} LessEqTotal(a: string, b: string)
    ensures LessEq(a, b) || LessEq(b, a)
  {
    if a != "" && b != "" && a[0] == b[0] {
      LessEqTotal(a[1..], b[1..]);
    }
  }

  lemma {:induction false} LessEqReflexive(a: string)
    ensures LessEq(a, a)
  {
    if a != "" {
      LessEqReflexive(a[1..]);
    }
  }

  lemma {:induction false} LessEqAntisymmetric(a: string, b: string)
    requires LessEq(a, b) && LessEq(b, a)
    ensures a == b
  {
    if a != "" {
      LessEqAntisymmetric(a[1..], b[1..]);
      assert a == [a[0]] + a[1..] && b == [b[0]] + b[1..];
    }
  }

  lemma {:induction false} LessEqTransitive(a: string, b: string, c: string)
    requires LessEq(a, b) && LessEq(b, c)
    ensures LessEq(a, c)
  {
    if a != "" && a[0] == b[0] && b[0] == c[0] {
      LessEqTransitive(a[1..], b[1..], c[1..]);
    }
  }

  lemma LessAsymmetric(a: string, b: string)
    requires Less(a, b)
    ensures !Less(b, a)
  {
    if LessEq(b, a) {
      LessEqAntisymmetric(a, b);
    }
  }

  /** Two strings of one length compare alike inside a common prefix, whatever follows them. */
  lemma {:induction false} LessInContext(prefix: string, a: string, b: string, x: string, y: string)
    requires |a| == |b| && Less(a, b)
    ensures Less(prefix + a + x, prefix + b + y)
    decreases |prefix|, |a|
  {
    var left, right := prefix + a + x, prefix + b + y;
    if prefix != "" {
      LessInContext(prefix[1..], a, b, x, y);
      assert left[1..] == prefix[1..] + a + x && right[1..] == prefix[1..] + b + y;
      assert left[0] == right[0];
    } else {
      assert left == a + x && right == b + y;
      if a[0] == b[0] {
        assert a == [a[0]] + a[1..] && b == [b[0]] + b[1..];
        LessInContext("", a[1..], b[1..], x, y);
        assert left[1..] == "" + a[1..] + x && right[1..] == "" + b[1..] + y;
        assert left[0] == right[0];
      } else {
        assert left[0] == a[0] && right[0] == b[0];
      }
    }
  }

  /** sort.Strings and sort.Slice by a string key. */
  function InsertBy<T>(key: T -> string, x: T, s: seq<T>): seq<T> {
    if s == [] || LessEq(key(x), key(s[0])) then [x] + s else [s[0]] + InsertBy(key, x, s[1..])
  }

  function SortBy<T>(key: T -> string, s: seq<T>): seq<T> {
    if s == [] then [] else InsertBy(key, s[0], SortBy(key, s[1..]))
  }

  function Itself(s: string): string {
    s
  }

  function SortStrings(s: seq<string>): seq<string> {
    SortBy(Itself, s)
  }

  ghost predicate SortedBy<T>(key: T -> string, s: seq<T>) {
    forall i, j | 0 <= i < j < |s| :: LessEq(key(s[i]), key(s[j]))
  }

  lemma {:induction false} InsertByKeeps<T>(key: T -> string, x: T, s: seq<T>)
    ensures multiset(InsertBy(key, x, s)) == multiset([x] + s)
    ensures SortedBy(key, s) ==> SortedBy(key, InsertBy(key, x, s))
  {
    var r := InsertBy(key, x, s);
    if s == [] || LessEq(key(x), key(s[0])) {
      if s != [] && SortedBy(key, s) {
        forall j | 0 < j < |r| ensures LessEq(key(x), key(r[j])) {
          if j > 1 {
            LessEqTransitive(key(x), key(s[0]), key(s[j - 1]));
          }
        }
      }
    } else {
      assert s == [s[0]] + s[1..];
      InsertByKeeps(key, x, s[1..]);
      assert multiset(r) == multiset([s[0]]) + multiset(r[1..]);
      if SortedBy(key, s) {
        LessEqTotal(key(x), key(s[0]));
        forall j | 0 < j < |r| ensures LessEq(key(r[0]), key(r[j])) {
          assert r[j] in multiset([x] + s[1..]) by {
            assert r[j] in multiset(r[1..]);
          }
          assert r[j] == x || r[j] in s[1..];
        }
      }
    }
  }

  /** Sorting keeps the elements and orders them. */
  lemma {:induction false} SortBySorts<T>(key: T -> string, s: seq<T>)
    ensures multiset(SortBy(key, s)) == multiset(s)
    ensures |SortBy(key, s)| == |s|
    ensures SortedBy(key, SortBy(key, s))
  {
    if s != [] {
      SortBySorts(key, s[1..]);
      InsertByKeeps(key, s[0], SortBy(key, s[1..]));
      assert s == [s[0]] + s[1..];
      calc {
        multiset(SortBy(key, s));
        multiset([s[0]] + SortBy(key, s[1..]));
        multiset([s[0]]) + multiset(s[1..]);
        multiset(s);
      }
    }
    assert |multiset(SortBy(key, s))| == |multiset(s)|;
  }

  /** The head of a sorted sequence has the least key of all its elements. */
  lemma HeadIsLeast<T>(key: T -> string, s: seq<T>, x: T)
    requires SortedBy(key, s) && x in s
    ensures LessEq(key(s[0]), key(x))
  {
    LessEqReflexive(key(s[0]));
  }

  lemma SameMembers<T>(a: seq<T>, b: seq<T>, x: T)
    requires multiset(a) == multiset(b) && x in a
    ensures x in b
  {
    assert x in multiset(a);
    assert x in multiset(b);
  }

  lemma TailsMatch<T>(a: seq<T>, b: seq<T>)
    requires a != [] && b != [] && a[0] == b[0] && multiset(a) == multiset(b)
    ensures multiset(a[1..]) == multiset(b[1..])
  {
    assert a == [a[0]] + a[1..] && b == [b[0]] + b[1..];
    assert multiset(a[1..]) == multiset(a) - multiset([a[0]]);
    assert multiset(b[1..]) == multiset(b) - multiset([b[0]]);
  }

  /** When keys identify elements, there is only one sorted arrangement of a multiset. */
  lemma {:induction false} SortedUnique<T>(key: T -> string, a: seq<T>, b: seq<T>)
    requires multiset(a) == multiset(b) && SortedBy(key, a) && SortedBy(key, b)
    requires forall x, y | x in a && y in a && key(x) == key(y) :: x == y
    ensures a == b
  {
    assert |multiset(a)| == |a| && |multiset(b)| == |b|;
    if a != [] {
      SameMembers(a, b, a[0]);
      SameMembers(b, a, b[0]);
      HeadIsLeast(key, a, b[0]);
      HeadIsLeast(key, b, a[0]);
      LessEqAntisymmetric(key(a[0]), key(b[0]));
      TailsMatch(a, b);
      forall x, y | x in a[1..] && y in a[1..] && key(x) == key(y) ensures x == y {
        assert x in a && y in a;
      }
      SortedUnique(key, a[1..], b[1..]);
      assert a == [a[0]] + a[1..] && b == [b[0]] + b[1..];
    }
  }

  /** Sorting forgets the order its input arrived in. */
  lemma SortForgetsOrder<T>(key: T -> string, a: seq<T>, b: seq<T>)
    requires multiset(a) == multiset(b)
    requires forall x, y | x in a && y in a && key(x) == key(y) :: x == y
    ensures SortBy(key, a) == SortBy(key, b)
  {
    SortBySorts(key, a);
    SortBySorts(key, b);
    forall x | x in SortBy(key, a) ensures x in a {
      assert x in multiset(SortBy(key, a));
    }
    SortedUnique(key, SortBy(key, a), SortBy(key, b));
  }

  function Join(parts: seq<string>, separator: string): string {
    if parts == [] then ""
    else if |parts| == 1 then parts[0]
    else parts[0] + separator + Join(parts[1..], separator)
  }

  /** Where the first separator stands decides the first part. */
  lemma FirstPart(a: string, b: string, x: string, y: string, sep: char)
    requires sep !in a && sep !in b
    requires a + [sep] + x == b + [sep] + y
    ensures a == b && x == y
  {
    var s, t := a + [sep] + x, b + [sep] + y;
    assert s[|a|] == sep && t[|b|] == sep;
    assert forall i | 0 <= i < |a| :: s[i] != sep by {
      assert forall i | 0 <= i < |a| :: s[i] == a[i] && a[i] in a;
    }
    assert forall i | 0 <= i < |b| :: t[i] != sep by {
      assert forall i | 0 <= i < |b| :: t[i] == b[i] && b[i] in b;
    }
    assert |a| == |b|;
    assert a == s[..|a|] && b == t[..|b|];
    assert x == s[|a| + 1..] && y == t[|b| + 1..];
  }

  /** Joining loses nothing when only the last part may hold the separator. */
  lemma {:induction false} JoinInjective(a: seq<string>, b: seq<string>, sep: char)
    requires |a| == |b| && Join(a, [sep]) == Join(b, [sep])
    requires forall i | 0 <= i < |a| - 1 :: sep !in a[i] && sep !in b[i]
    ensures a == b
  {
    if |a| > 1 {
      FirstPart(a[0], b[0], Join(a[1..], [sep]), Join(b[1..], [sep]), sep);
      JoinInjective(a[1..], b[1..], sep);
      assert a == [a[0]] + a[1..] && b == [b[0]] + b[1..];
    }
  }
}
