/** What joining with a separator keeps of the parts when the parts may hold it themselves. */
module Separators {
  import opened Text

  /** How often a separator occurs. */
  function Occurrences(s: string, sep: char): nat {
    if s == "" then 0 else Occurrences(s[1..], sep) + if s[0] == sep then 1 else 0
  }

  function TotalOccurrences(parts: seq<string>, sep: char): nat {
    if parts == [] then 0 else Occurrences(parts[0], sep) + TotalOccurrences(parts[1..], sep)
  }

  lemma {:induction false} OccurrencesAppend(a: string, b: string, sep: char)
    ensures Occurrences(a + b, sep) == Occurrences(a, sep) + Occurrences(b, sep)
  {
    if a == "" {
      assert a + b == b;
    } else {
      OccurrencesAppend(a[1..], b, sep);
      assert (a + b)[1..] == a[1..] + b;
    }
  }

  lemma {:induction false} FreeOfSeparator(s: string, sep: char)
    ensures sep !in s <==> Occurrences(s, sep) == 0
  {
    if s != "" {
      FreeOfSeparator(s[1..], sep);
      assert s == [s[0]] + s[1..];
    }
  }

  /** Joining adds one separator between every two parts and keeps those inside them. */
  lemma {:induction false} OccurrencesOfJoin(parts: seq<string>, sep: char)
    requires parts != []
    ensures Occurrences(Join(parts, [sep]), sep) == TotalOccurrences(parts, sep) + |parts| - 1
  {
    if |parts| > 1 {
      OccurrencesOfJoin(parts[1..], sep);
      var rest := Join(parts[1..], [sep]);
      OccurrencesAppend(parts[0] + [sep], rest, sep);
      OccurrencesAppend(parts[0], [sep], sep);
    }
  }

  ghost predicate AllFree(parts: seq<string>, sep: char) {
    forall i | 0 <= i < |parts| :: sep !in parts[i]
  }

  lemma {:induction false} FreeParts(parts: seq<string>, sep: char)
    ensures AllFree(parts, sep) <==> TotalOccurrences(parts, sep) == 0
  {
    if parts != [] {
      FreeParts(parts[1..], sep);
      FreeOfSeparator(parts[0], sep);
      assert parts == [parts[0]] + parts[1..];
    }
  }

  /** One list free of the separator is enough: another of that length with the same join is the same list. */
  lemma FreeJoinIsUnique(a: seq<string>, b: seq<string>, sep: char)
    requires |a| == |b| && AllFree(a, sep) && Join(a, [sep]) == Join(b, [sep])
    ensures a == b
  {
    if a != [] {
      OccurrencesOfJoin(a, sep);
      OccurrencesOfJoin(b, sep);
      FreeParts(a, sep);
      FreeParts(b, sep);
      JoinInjective(a, b, sep);
    }
  }

  /** A separator inside a part can be read as the one before the next part. */
  function Regrouped(parts: seq<string>, k: nat, x: string, y: string, sep: char): seq<string>
    requires k + 1 < |parts|
  {
    parts[k := x][k + 1 := y + [sep] + parts[k + 1]]
  }

  lemma JoinHead(parts: seq<string>, prefix: string, sep: char)
    requires parts != []
    ensures Join(parts[0 := prefix + parts[0]], [sep]) == prefix + Join(parts, [sep])
  {
    var longer := parts[0 := prefix + parts[0]];
    if |parts| > 1 {
      assert longer[1..] == parts[1..];
      var rest := Join(parts[1..], [sep]);
      assert prefix + parts[0] + [sep] + rest == prefix + (parts[0] + [sep] + rest);
    }
  }

  lemma {:induction false} RegroupingKeepsJoin(parts: seq<string>, k: nat, x: string, y: string, sep: char)
    requires k + 1 < |parts| && parts[k] == x + [sep] + y
    ensures Join(Regrouped(parts, k, x, y, sep), [sep]) == Join(parts, [sep])
  {
    var other := Regrouped(parts, k, x, y, sep);
    if k == 0 {
      var rest := parts[1..];
      assert other[1..] == rest[0 := y + [sep] + rest[0]];
      JoinHead(rest, y + [sep], sep);
      assert x + [sep] + (y + [sep] + Join(rest, [sep])) == x + [sep] + y + [sep] + Join(rest, [sep]);
    } else {
      RegroupingKeepsJoin(parts[1..], k - 1, x, y, sep);
      assert other[1..] == Regrouped(parts[1..], k - 1, x, y, sep);
    }
  }

  /** A list with a separator in some part is not alone with its join. */
  lemma BarredJoinIsShared(parts: seq<string>, k: nat, sep: char) returns (other: seq<string>)
    requires k < |parts| && |parts| >= 2 && sep in parts[k]
    ensures |other| == |parts| && other != parts && Join(other, [sep]) == Join(parts, [sep])
  {
    var s := parts[k];
    var i :| 0 <= i < |s| && s[i] == sep;
    var x, y := s[..i], s[i + 1..];
    assert s == x + [sep] + y;
    if k + 1 < |parts| {
      other := Regrouped(parts, k, x, y, sep);
      RegroupingKeepsJoin(parts, k, x, y, sep);
      assert |other[k]| < |parts[k]|;
    } else {
      other := parts[k - 1 := parts[k - 1] + [sep] + x][k := y];
      RegroupingKeepsJoin(other, k - 1, parts[k - 1], x, sep);
      assert Regrouped(other, k - 1, parts[k - 1], x, sep) == parts;
      assert |other[k]| < |parts[k]|;
    }
  }

  /** The mirror image of FirstPart. */
  lemma {:induction false} LastPart(x: string, y: string, a: string, b: string, sep: char)
    requires sep !in a && sep !in b && x + [sep] + a == y + [sep] + b
    ensures x == y && a == b
    decreases |x|
  {
    var s, t := x + [sep] + a, y + [sep] + b;
    assert s[|x|] == sep && t[|y|] == sep;
    assert forall i | |x| < i < |s| :: s[i] != sep by {
      assert forall i | |x| < i < |s| :: s[i] == a[i - |x| - 1] && a[i - |x| - 1] in a;
    }
    assert forall i | |y| < i < |t| :: t[i] != sep by {
      assert forall i | |y| < i < |t| :: t[i] == b[i - |y| - 1] && b[i - |y| - 1] in b;
    }
    assert |x| == |y|;
    assert x == s[..|x|] && y == t[..|y|];
    assert a == s[|x| + 1..] && b == t[|y| + 1..];
  }

  lemma {:induction false} JoinLast(parts: seq<string>, sep: char)
    requires |parts| >= 2
    ensures Join(parts, [sep]) == Join(parts[..|parts| - 1], [sep]) + [sep] + parts[|parts| - 1]
  {
    var last := |parts| - 1;
    if |parts| > 2 {
      JoinLast(parts[1..], sep);
      assert parts[1..][..last - 1] == parts[..last][1..];
      var inner := Join(parts[..last][1..], [sep]);
      assert parts[0] + [sep] + (inner + [sep] + parts[last]) == parts[0] + [sep] + inner + [sep] + parts[last];
    } else {
      assert parts[1..] == [parts[1]] && parts[..1] == [parts[0]];
    }
  }

  /** Free of the separator but for one place. */
  ghost predicate FreeBut(parts: seq<string>, m: nat, sep: char) {
    m < |parts| && forall i | 0 <= i < |parts| && i != m :: sep !in parts[i]
  }

  /** When separators can stand in one and the same part only, the join still tells lists apart. */
  lemma {:induction false} JoinInjectiveAround(a: seq<string>, b: seq<string>, m: nat, sep: char)
    requires |a| == |b| && FreeBut(a, m, sep) && FreeBut(b, m, sep) && Join(a, [sep]) == Join(b, [sep])
    ensures a == b
    decreases |a|
  {
    var last := |a| - 1;
    if m > 0 {
      FirstPart(a[0], b[0], Join(a[1..], [sep]), Join(b[1..], [sep]), sep);
      JoinInjectiveAround(a[1..], b[1..], m - 1, sep);
      assert a == [a[0]] + a[1..] && b == [b[0]] + b[1..];
    } else if last > 0 {
      JoinLast(a, sep);
      JoinLast(b, sep);
      LastPart(Join(a[..last], [sep]), Join(b[..last], [sep]), a[last], b[last], sep);
      JoinInjectiveAround(a[..last], b[..last], m, sep);
      assert a == a[..last] + [a[last]] && b == b[..last] + [b[last]];
    }
  }
}
