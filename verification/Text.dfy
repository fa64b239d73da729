/** Byte strings as Go sees them: one character stands for one byte, and case
    folding is the ASCII one that header and cookie names need. */
module Text {

  const NUL: char := '\0'

  ghost predicate NulFree(s: string) {
    NUL !in s
  }

  // ---------------------------------------------------------------------
  // Byte order (Go's < on strings)
  // ---------------------------------------------------------------------

  predicate Before(a: string, b: string) {
    if b == "" then false
    else if a == "" then true
    else if a[0] != b[0] then a[0] < b[0]
    else Before(a[1..], b[1..])
  }

  /** The order by the first difference; a proper prefix comes first. */
  lemma {:induction false} BeforeMeansFirstDifference(a: string, b: string)
    ensures Before(a, b) <==>
            a < b || exists k :: 0 <= k < |a| && k < |b| && a[..k] == b[..k] && a[k] < b[k]
  {
    if a != "" && b != "" {
      if a[0] == b[0] {
        BeforeMeansFirstDifference(a[1..], b[1..]);
        SharedHead(a, b);
      } else if a[0] < b[0] {
        assert a[..0] == b[..0];
      }
    }
  }

  lemma SharedHead(a: string, b: string)
    requires a != "" && b != "" && a[0] == b[0]
    ensures a < b <==> a[1..] < b[1..]
    ensures (exists k :: 0 <= k < |a| && k < |b| && a[..k] == b[..k] && a[k] < b[k]) <==>
            exists k :: 0 <= k < |a| - 1 && k < |b| - 1 && a[1..][..k] == b[1..][..k] && a[1..][k] < b[1..][k]
  {
    assert a == [a[0]] + a[1..] && b == [b[0]] + b[1..];
    if k :| 0 <= k < |a| && k < |b| && a[..k] == b[..k] && a[k] < b[k] {
      assert k > 0;
      assert a[1..][..k - 1] == a[..k][1..] && b[1..][..k - 1] == b[..k][1..];
    }
    if k :| 0 <= k < |a| - 1 && k < |b| - 1 && a[1..][..k] == b[1..][..k] && a[1..][k] < b[1..][k] {
      assert a[..k + 1] == [a[0]] + a[1..][..k] && b[..k + 1] == [b[0]] + b[1..][..k];
      assert a[k + 1] < b[k + 1];
    }
  }

  lemma {:induction false} BeforeIsStrict(a: string, b: string)
    ensures !(Before(a, b) && Before(b, a))
    ensures !Before(a, a)
    ensures a != b ==> Before(a, b) || Before(b, a)
    decreases |a| + |b|
  {
    BeforeIrreflexive(a);
    if a != "" && b != "" && a[0] == b[0] {
      BeforeIsStrict(a[1..], b[1..]);
      assert a == [a[0]] + a[1..] && b == [b[0]] + b[1..];
    }
  }

  lemma {:induction false} BeforeIrreflexive(a: string)
    ensures !Before(a, a)
  {
    if a != "" {
      BeforeIrreflexive(a[1..]);
    }
  }

  lemma {:induction false} BeforeIsTransitive(a: string, b: string, c: string)
    requires Before(a, b) && Before(b, c)
    ensures Before(a, c)
  {
    if a != "" && a[0] == b[0] && b[0] == c[0] {
      BeforeIsTransitive(a[1..], b[1..], c[1..]);
    }
  }

  /** Strict growth along a sequence; it forces the elements to be distinct. */
  ghost predicate StrictlySorted(s: seq<string>) {
    forall i, j :: 0 <= i < j < |s| ==> Before(s[i], s[j])
  }

  ghost function Elements<T>(s: seq<T>): set<T> {
    set x | x in s
  }

  /** A strictly sorted list is determined by its set of elements. */
  lemma {:induction false} SortedListsAreUnique(s: seq<string>, t: seq<string>)
    requires StrictlySorted(s) && StrictlySorted(t)
    requires Elements(s) == Elements(t)
    ensures s == t
  {
    assert s != [] ==> s[0] in Elements(s);
    assert t != [] ==> t[0] in Elements(t);
    if s != [] {
      if s[0] != t[0] {
        HeadIsLeast(s, t[0]);
        HeadIsLeast(t, s[0]);
        BeforeIsStrict(s[0], t[0]);
        assert false;
      }
      TailElements(s);
      TailElements(t);
      SortedListsAreUnique(s[1..], t[1..]);
      assert s == [s[0]] + s[1..] && t == [t[0]] + t[1..];
    }
  }

  lemma HeadIsLeast(s: seq<string>, x: string)
    requires StrictlySorted(s) && x in s && x != s[0]
    ensures Before(s[0], x)
  {
    var i :| 0 <= i < |s| && s[i] == x;
  }

  lemma TailElements(s: seq<string>)
    requires StrictlySorted(s) && s != []
    ensures Elements(s[1..]) == Elements(s) - {s[0]}
    ensures StrictlySorted(s[1..])
  {
    assert s == [s[0]] + s[1..];
    BeforeIrreflexive(s[0]);
    assert forall j :: 0 < j < |s| ==> Before(s[0], s[j]);
    assert s[0] !in s[1..];
  }

  lemma PrefixGrows<T>(s: seq<T>, i: nat)
    requires i < |s|
    ensures s[..i + 1] == s[..i] + [s[i]]
  {}

  // ---------------------------------------------------------------------
  // Sorting
  // ---------------------------------------------------------------------

  /** No later element sorts before an earlier one. Elements with equal keys may
      stand in any order, as after Go's unstable sort.Slice. */
  ghost predicate SortedBy(s: seq<string>, key: string -> string) {
    forall i, j :: 0 <= i < j < |s| ==> !Before(key(s[j]), key(s[i]))
  }

  /** What sort.Slice and sort.Strings promise; callers see only the contract. */
  method Sort(s: seq<string>, key: string -> string) returns (r: seq<string>)
    ensures multiset(r) == multiset(s)
    ensures SortedBy(r, key)
  {
    r := [];
    for i := 0 to |s|
      invariant multiset(r) == multiset(s[..i])
      invariant SortedBy(r, key)
    {
      r := InsertSorted(r, s[i], key);
      assert s[..i + 1] == s[..i] + [s[i]];
    }
    assert s[..|s|] == s;
  }

  method InsertSorted(s: seq<string>, x: string, key: string -> string) returns (r: seq<string>)
    requires SortedBy(s, key)
    ensures multiset(r) == multiset(s) + multiset{x} && SortedBy(r, key)
  {
    var at := |s|;
    while at > 0 && Before(key(x), key(s[at - 1]))
      invariant 0 <= at <= |s|
      invariant forall j :: at <= j < |s| ==> Before(key(x), key(s[j]))
    {
      at := at - 1;
    }
    InsertKeepsSorted(s, at, x, key);
    InsertAddsOne(s, at, x);
    r := s[..at] + [x] + s[at..];
  }

  lemma InsertAddsOne(s: seq<string>, at: nat, x: string)
    requires at <= |s|
    ensures multiset(s[..at] + [x] + s[at..]) == multiset(s) + multiset{x}
  {
    assert s == s[..at] + s[at..];
  }

  lemma InsertKeepsSorted(r: seq<string>, at: nat, x: string, key: string -> string)
    requires at <= |r| && SortedBy(r, key)
    requires forall j :: at <= j < |r| ==> Before(key(x), key(r[j]))
    requires at > 0 ==> !Before(key(x), key(r[at - 1]))
    ensures SortedBy(r[..at] + [x] + r[at..], key)
  {
    var t := r[..at] + [x] + r[at..];
    forall i, j | 0 <= i < j < |t| ensures !Before(key(t[j]), key(t[i])) {
      if i < at && j == at {
        if Before(key(x), key(r[i])) && i < at - 1 {
          NotAfter(key(x), key(r[i]), key(r[at - 1]));
        }
      } else if i == at {
        assert t[j] == r[j - 1];
        BeforeIsStrict(key(x), key(r[j - 1]));
      } else if i < at && j > at {
        assert t[j] == r[j - 1];
      } else if i > at {
        assert t[i] == r[i - 1] && t[j] == r[j - 1];
      }
    }
  }

  lemma NotAfter(a: string, b: string, c: string)
    requires Before(a, b) && !Before(c, b)
    ensures Before(a, c)
  {
    if b != c {
      BeforeIsStrict(b, c);
      BeforeIsTransitive(a, b, c);
    }
  }

  ghost predicate Distinct<T>(s: seq<T>) {
    forall i, j :: 0 <= i < j < |s| ==> s[i] != s[j]
  }

  /** Reordering changes neither the elements nor their distinctness. */
  lemma PermutationKeepsElements(a: seq<string>, b: seq<string>)
    requires multiset(a) == multiset(b) && Distinct(a)
    ensures Distinct(b) && Elements(a) == Elements(b)
  {
    DistinctMultiset(a);
    DistinctMultiset(b);
    forall x ensures x in a <==> x in b {
      assert x in a <==> x in multiset(a);
      assert x in b <==> x in multiset(b);
    }
  }

  lemma {:induction false} DistinctMultiset(s: seq<string>)
    ensures Distinct(s) <==> forall x :: multiset(s)[x] <= 1
  {
    if s != [] {
      var rest := s[1..];
      DistinctMultiset(rest);
      assert s == [s[0]] + rest;
      assert multiset(s) == multiset{s[0]} + multiset(rest);
      assert s[0] in rest <==> multiset(rest)[s[0]] > 0;
      if forall x :: multiset(s)[x] <= 1 {
        assert multiset(s)[s[0]] <= 1;
        forall x ensures multiset(rest)[x] <= 1 { assert multiset(s)[x] <= 1; }
        forall i, j | 0 <= i < j < |s| ensures s[i] != s[j] {
          assert s[j] == rest[j - 1];
          assert i > 0 ==> s[i] == rest[i - 1];
        }
      }
      if Distinct(s) {
        forall i, j | 0 <= i < j < |rest| ensures rest[i] != rest[j] {
          assert rest[i] == s[i + 1] && rest[j] == s[j + 1];
        }
        forall i | 0 <= i < |rest| ensures rest[i] != s[0] { assert rest[i] == s[i + 1]; }
        forall x ensures multiset(s)[x] <= 1 { assert multiset(rest)[x] <= 1; }
      }
    }
  }

  /** Sorting distinct keys is strict. */
  lemma DistinctSortIsStrict(s: seq<string>, key: string -> string)
    requires SortedBy(s, key)
    requires forall i, j :: 0 <= i < j < |s| ==> key(s[i]) != key(s[j])
    ensures forall i, j :: 0 <= i < j < |s| ==> Before(key(s[i]), key(s[j]))
  {
    forall i, j | 0 <= i < j < |s| ensures Before(key(s[i]), key(s[j])) {
      BeforeIsStrict(key(s[i]), key(s[j]));
    }
  }

  /** The keys of a finite set in byte order. */
  ghost function SortedKeys(s: set<string>): (r: seq<string>)
    ensures StrictlySorted(r) && Elements(r) == s && |r| == |s|
    decreases |s|
  {
    if s == {} then []
    else
      var x :| x in s;
      InsertKey(x, SortedKeys(s - {x}))
  }

  ghost function InsertKey(x: string, s: seq<string>): (r: seq<string>)
    requires StrictlySorted(s) && x !in s
    ensures StrictlySorted(r) && Elements(r) == Elements(s) + {x} && |r| == |s| + 1
  {
    if s == [] then [x]
    else if Before(x, s[0]) then
      InsertFirst(x, s);
      [x] + s
    else
      BeforeIsStrict(x, s[0]);
      TailElements(s);
      var r := [s[0]] + InsertKey(x, s[1..]);
      assert StrictlySorted(r) by {
        forall j | 0 < j < |r| ensures Before(s[0], r[j]) {
          assert r[j] in Elements(InsertKey(x, s[1..]));
        }
      }
      r
  }

  lemma InsertFirst(x: string, s: seq<string>)
    requires StrictlySorted(s) && s != [] && Before(x, s[0])
    ensures StrictlySorted([x] + s)
  {
    forall j | 0 < j < |s| ensures Before(x, s[j]) {
      BeforeIsTransitive(x, s[0], s[j]);
    }
  }

  // ---------------------------------------------------------------------
  // Names
  // ---------------------------------------------------------------------

  function LowerChar(c: char): char {
    if 'A' <= c <= 'Z' then ((c as int) + 32) as char else c
  }

  function UpperChar(c: char): char {
    if 'a' <= c <= 'z' then ((c as int) - 32) as char else c
  }

  /** strings.ToLower on ASCII names. */
  function Lower(s: string): (r: string)
    ensures |r| == |s| && forall i :: 0 <= i < |s| ==> r[i] == LowerChar(s[i])
  {
    seq(|s|, i requires 0 <= i < |s| => LowerChar(s[i]))
  }

  /** A token character (section 5.6.2 of RFC 9110). */
  predicate TokenChar(c: char) {
    'a' <= c <= 'z' || 'A' <= c <= 'Z' || '0' <= c <= '9' || c in "!#$%&'*+-.^_`|~"
  }

  /** validHeaderName: a nonempty token. */
  predicate ValidHeaderName(s: string) {
    s != "" && forall i :: 0 <= i < |s| ==> TokenChar(s[i])
  }

  /** validCookieName: a token of at most 128 bytes. */
  predicate ValidCookieName(s: string) {
    ValidHeaderName(s) && |s| <= 128
  }

  function CanonicalFrom(s: string, upper: bool): (r: string)
    ensures |r| == |s|
    ensures forall i :: 0 <= i < |s| ==> LowerChar(r[i]) == LowerChar(s[i])
  {
    if s == "" then ""
    else
      var c := if upper then UpperChar(s[0]) else LowerChar(s[0]);
      [c] + CanonicalFrom(s[1..], c == '-')
  }

  /** http.CanonicalHeaderKey: tokens are written Like-This, anything else is kept. */
  function Canonical(s: string): string {
    if ValidHeaderName(s) then CanonicalFrom(s, true) else s
  }

  /** Said the other way round: visible characters other than delimiters. */
  lemma TokensExcludeDelimiters(c: char)
    ensures TokenChar(c) <==> '!' <= c <= '~' && c !in "\"(),/:;<=>?@[\\]{}"
  {}

  /** Folding turns the 26 capitals into the small letters at their places, and nothing
      else. */
  lemma FoldingMeaning(c: char)
    ensures LowerChar(c) == if 'A' <= c <= 'Z' then "abcdefghijklmnopqrstuvwxyz"[c as int - 'A' as int] else c
    ensures UpperChar(c) == if 'a' <= c <= 'z' then "ABCDEFGHIJKLMNOPQRSTUVWXYZ"[c as int - 'a' as int] else c
  {}

  /** Canonical names are capital at the start and after a dash, small elsewhere. */
  lemma CanonicalShape(s: string, i: nat)
    requires ValidHeaderName(s) && i < |s|
    ensures Canonical(s)[i] == if i == 0 || s[i - 1] == '-' then UpperChar(s[i]) else LowerChar(s[i])
  {
    CanonicalFromShape(s, true, i);
  }

  lemma {:induction false} CanonicalFromShape(s: string, upper: bool, i: nat)
    requires i < |s|
    ensures CanonicalFrom(s, upper)[i] ==
            if (if i == 0 then upper else s[i - 1] == '-') then UpperChar(s[i]) else LowerChar(s[i])
  {
    if i > 0 {
      var c := if upper then UpperChar(s[0]) else LowerChar(s[0]);
      CanonicalFromShape(s[1..], c == '-', i - 1);
    }
  }

  lemma TokenCharFolds(a: char, b: char)
    requires LowerChar(a) == LowerChar(b) && TokenChar(a)
    ensures TokenChar(b)
  {}

  /** Two spellings of one name have one canonical form, and canonicalizing keeps
      the folded name and the token property. */
  lemma CanonicalFoldsCase(s: string, t: string)
    requires ValidHeaderName(s) && Lower(s) == Lower(t)
    ensures ValidHeaderName(t) && Canonical(s) == Canonical(t)
    ensures Lower(Canonical(s)) == Lower(s) && ValidHeaderName(Canonical(s))
  {
    forall i | 0 <= i < |t| ensures TokenChar(t[i]) {
      assert Lower(s)[i] == Lower(t)[i];
      TokenCharFolds(s[i], t[i]);
    }
    CanonicalFromFolds(s, t, true);
    var c := Canonical(s);
    assert Lower(c) == Lower(s);
    forall i | 0 <= i < |c| ensures TokenChar(c[i]) {
      TokenCharFolds(s[i], c[i]);
    }
  }

  lemma {:induction false} CanonicalFromFolds(s: string, t: string, upper: bool)
    requires Lower(s) == Lower(t)
    ensures CanonicalFrom(s, upper) == CanonicalFrom(t, upper)
  {
    if s != "" {
      assert Lower(s)[0] == Lower(t)[0];
      assert |Lower(s)| == |Lower(t)|;
      forall i | 0 <= i < |s| - 1 ensures Lower(s[1..])[i] == Lower(t[1..])[i] {
        assert Lower(s)[i + 1] == Lower(t)[i + 1];
      }
      assert Lower(s[1..]) == Lower(t[1..]);
      var c := if upper then UpperChar(s[0]) else LowerChar(s[0]);
      CanonicalFromFolds(s[1..], t[1..], c == '-');
    }
  }

  /** strings.Join(values, separator). */
  function Join(values: seq<string>, separator: string): string {
    if values == [] then ""
    else if |values| == 1 then values[0]
    else values[0] + separator + Join(values[1..], separator)
  }

  /** Decimal digits, as strconv.FormatInt and FormatUint write them. */
  function Decimal(n: nat): string {
    if n < 10 then [((n + '0' as int) as char)]
    else Decimal(n / 10) + [((n % 10 + '0' as int) as char)]
  }

  lemma {:induction false} JoinAppends(values: seq<string>, v: string, separator: string)
    ensures Join([v], separator) == v
    ensures values != [] ==> Join(values + [v], separator) == Join(values, separator) + separator + v
  {
    if |values| == 1 {
      assert (values + [v])[1..] == [v];
    } else if values != [] {
      JoinAppends(values[1..], v, separator);
      assert (values + [v])[1..] == values[1..] + [v];
      assert values[0] + separator + (Join(values[1..], separator) + separator + v)
             == values[0] + separator + Join(values[1..], separator) + separator + v;
    }
  }

  /** The number a run of digits stands for. */
  function ValueOf(digits: string): int {
    if digits == "" then 0 else 10 * ValueOf(digits[..|digits| - 1]) + (digits[|digits| - 1] as int - '0' as int)
  }

  /** Decimal digits read back as the number they were written for. */
  lemma {:induction false} DecimalReadsBack(n: nat)
    ensures ValueOf(Decimal(n)) == n && Decimal(n) != ""
    ensures forall c :: c in Decimal(n) ==> '0' <= c <= '9'
  {
    if n < 10 {
      assert Decimal(n)[..0] == "";
    } else {
      DecimalReadsBack(n / 10);
      assert Decimal(n)[..|Decimal(n)| - 1] == Decimal(n / 10);
    }
  }

  // ---------------------------------------------------------------------
  // Maps the cache key can read back
  // ---------------------------------------------------------------------

  ghost predicate NulFreeMap(m: map<string, string>) {
    forall k :: k in m ==> NulFree(k) && NulFree(m[k])
  }

  ghost predicate LowerCaseKeys(m: map<string, string>) {
    forall k :: k in m ==> Lower(k) == k
  }

  lemma LowerKeepsNulFree(s: string)
    requires NulFree(s)
    ensures NulFree(Lower(s))
  {
    forall i | 0 <= i < |s| ensures Lower(s)[i] != NUL {}
  }

  lemma LowerIsIdempotent(s: string)
    ensures Lower(Lower(s)) == Lower(s)
  {}

  lemma TokensAreNulFree(s: string)
    requires ValidHeaderName(s)
    ensures NulFree(s)
  {}

  lemma {:induction false} JoinIsNulFree(values: seq<string>, separator: string)
    requires NulFree(separator) && forall v :: v in values ==> NulFree(v)
    ensures NulFree(Join(values, separator))
  {
    if values != [] {
      assert values[0] in values;
      JoinIsNulFree(values[1..], separator);
    }
  }

  lemma {:induction false} DecimalIsNulFree(n: nat)
    ensures NulFree(Decimal(n))
  {
    if n >= 10 {
      DecimalIsNulFree(n / 10);
    }
  }
}
