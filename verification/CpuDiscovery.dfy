/** From the inventory paths of the CPUs to the list of sockets to test. */
module CpuDiscovery {
  import opened Wrappers

  const SIZE_LIMIT: nat := 0x1_0000_0000_0000_0000

  datatype Discovery = NoCpus | ParseFailed | NonContiguous | Sockets(list: string)

  // ----- Numbers in text -----

  predicate IsDigit(c: char) {
    '0' <= c <= '9'
  }

  predicate AllDigits(s: string) {
    forall i :: 0 <= i < |s| ==> IsDigit(s[i])
  }

  function Value(s: string): nat
    requires AllDigits(s)
  {
    if s == "" then 0 else Value(s[..|s| - 1]) * 10 + (s[|s| - 1] as nat - '0' as nat)
  }

  function Decimal(n: nat): (s: string)
    ensures s != "" && AllDigits(s)
  {
    if n < 10 then [('0' as nat + n) as char] else Decimal(n / 10) + [('0' as nat + n % 10) as char]
  }

  lemma {:induction false} ValueOfDecimal(n: nat)
    ensures Value(Decimal(n)) == n
  {
    if n >= 10 {
      ValueOfDecimal(n / 10);
      assert Decimal(n)[..|Decimal(n)| - 1] == Decimal(n / 10);
    }
  }

  /** What is after the last `c`; all of `s` if there is none. */
  function After(s: string, c: char): string {
    if s == "" || s[|s| - 1] == c then "" else After(s[..|s| - 1], c) + [s[|s| - 1]]
  }

  /** The socket number in a path: the digits after the last underscore of its last component. A number
      that does not fit the machine word is none. */
  function SocketNumber(path: string): Option<nat> {
    var name := After(path, '/');
    var digits := After(name, '_');
    if '_' !in name || digits == "" || !AllDigits(digits) || Value(digits) >= SIZE_LIMIT then None
    else Some(Value(digits))
  }

  lemma {:induction false} AfterAppend(s: string, c: char, t: string)
    requires c !in t
    ensures After(s + t, c) == After(s, c) + t
  {
    if t == "" {
      assert s + t == s;
    } else {
      var front := t[..|t| - 1];
      assert t == front + [t[|t| - 1]];
      AfterAppend(s, c, front);
      assert (s + t)[..|s + t| - 1] == s + front;
    }
  }

  /** A path that ends in an underscore and a number that fits names that socket. */
  lemma PathNamesSocket(prefix: string, n: nat)
    requires n < SIZE_LIMIT
    ensures SocketNumber(prefix + "_" + Decimal(n)) == Some(n)
  {
    ValueOfDecimal(n);
    DigitsNamed(prefix, Decimal(n));
  }

  /** What is after the last c ends the string, behind that c. */
  lemma {:induction false} AfterLast(s: string, c: char)
    ensures c !in After(s, c)
    ensures if c in s then exists before :: s == before + [c] + After(s, c) else After(s, c) == s
  {
    if s != "" && s[|s| - 1] != c {
      var front, last := s[..|s| - 1], s[|s| - 1];
      assert s == front + [last];
      AfterLast(front, c);
      if c in front {
        var before :| front == before + [c] + After(front, c);
        assert s == before + [c] + (After(front, c) + [last]);
      }
    } else if s != "" {
      assert s == s[..|s| - 1] + [c] + "";
    }
  }

  /** A path names a socket exactly if it ends in an underscore and digits, one at least, whose value fits. */
  lemma NamesSocketExactly(path: string, n: nat)
    ensures SocketNumber(path) == Some(n) <==>
      exists prefix, digits | NamedBy(path, prefix, digits) :: Value(digits) == n < 0x1_0000_0000_0000_0000
  {
    if SocketNumber(path) == Some(n) {
      var digits := NamedDigits(path);
    }
    if prefix, digits :| NamedBy(path, prefix, digits) && Value(digits) == n < 0x1_0000_0000_0000_0000 {
      DigitsNamed(prefix, digits);
    }
  }

  /** The path is that prefix, an underscore and those digits. */
  ghost predicate NamedBy(path: string, prefix: string, digits: string) {
    path == prefix + "_" + digits && digits != "" && AllDigits(digits)
  }

  lemma NamedDigits(path: string) returns (digits: string)
    requires SocketNumber(path).Some?
    ensures exists prefix :: NamedBy(path, prefix, digits)
    ensures AllDigits(digits) && SocketNumber(path) == Some(Value(digits))
  {
    hide After, AllDigits, Value;
    var name := After(path, '/');
    digits := After(name, '_');
    AfterLast(path, '/');
    AfterLast(name, '_');
    assert '_' in name;
    var before :| name == before + "_" + digits;
    var prefix := before;
    if '/' in path {
      var dir :| path == dir + "/" + name;
      prefix := dir + "/" + before;
      Regrouped(dir + "/", before, "_" + digits);
      Regrouped(prefix, "_", digits);
      Regrouped(before, "_", digits);
    }
    assert NamedBy(path, prefix, digits);
  }

  lemma Regrouped(a: string, b: string, c: string)
    ensures a + (b + c) == a + b + c
  {
  }

  lemma AfterJoined(a: string, c: char, t: string)
    requires c !in t
    ensures After(a + [c] + t, c) == t
  {
    AfterAppend(a + [c], c, t);
    assert After(a + [c], c) == "" && "" + t == t;
  }

  lemma DigitsNamed(prefix: string, digits: string)
    requires digits != "" && AllDigits(digits) && Value(digits) < SIZE_LIMIT
    ensures SocketNumber(prefix + "_" + digits) == Some(Value(digits))
  {
    NoDigit(digits);
    hide After, AllDigits, Value;
    AfterAppend(prefix, '/', "_" + digits);
    Regrouped(prefix, "_", digits);
    Regrouped(After(prefix, '/'), "_", digits);
    AfterJoined(After(prefix, '/'), '_', digits);
    assert '_' in After(prefix, '/') + "_";
  }

  lemma NoDigit(s: string)
    requires AllDigits(s)
    ensures '/' !in s && '_' !in s && ',' !in s
  {
  }

  // ----- Reference -----

  ghost predicate AllParse(paths: seq<string>) {
    forall i :: 0 <= i < |paths| ==> SocketNumber(paths[i]).Some?
  }

  ghost function Numbers(paths: seq<string>): set<nat>
    requires AllParse(paths)
  {
    set i | 0 <= i < |paths| :: SocketNumber(paths[i]).value
  }

  ghost function UpTo(n: nat): (s: set<nat>)
    ensures |s| == n && forall i :: i in s <==> 0 <= i < n
  {
    if n == 0 then {} else UpTo(n - 1) + {n - 1}
  }

  /** The first n numbers, with commas between them. */
  function SocketList(n: nat): string {
    if n == 0 then "" else if n == 1 then Decimal(0) else SocketList(n - 1) + "," + Decimal(n - 1)
  }

  /** Discovery of a set of socket numbers. */
  ghost function FromNumbers(numbers: set<nat>): Discovery {
    if numbers == UpTo(|numbers|) then Sockets(SocketList(|numbers|)) else NonContiguous
  }

  ghost function Discover(paths: seq<string>): Discovery {
    if paths == [] then NoCpus
    else if !AllParse(paths) then ParseFailed
    else FromNumbers(Numbers(paths))
  }

  // ----- The algorithm -----

  ghost predicate Sorted(s: seq<nat>) {
    forall i, j :: 0 <= i < j < |s| ==> s[i] <= s[j]
  }

  ghost predicate Increasing(s: seq<nat>) {
    forall i, j :: 0 <= i < j < |s| ==> s[i] < s[j]
  }

  ghost function Elements(s: seq<nat>): set<nat> {
    set i | 0 <= i < |s| :: s[i]
  }

  /** Puts x behind everything in t that is no larger. */
  function Inserted(t: seq<nat>, x: nat): (u: seq<nat>)
    ensures |u| == |t| + 1
  {
    if t == [] || t[|t| - 1] <= x then t + [x] else Inserted(t[..|t| - 1], x) + [t[|t| - 1]]
  }

  lemma {:induction false} InsertedSorted(t: seq<nat>, x: nat, bound: nat)
    requires Sorted(t) && x <= bound && (t != [] ==> t[|t| - 1] <= bound)
    ensures Sorted(Inserted(t, x)) && Inserted(t, x)[|t|] <= bound
  {
    if t != [] && t[|t| - 1] > x {
      InsertedSorted(t[..|t| - 1], x, t[|t| - 1]);
    }
  }

  lemma {:induction false} InsertedElements(t: seq<nat>, x: nat)
    ensures multiset(Inserted(t, x)) == multiset(t) + multiset{x}
  {
    if t != [] && t[|t| - 1] > x {
      var front, last := t[..|t| - 1], t[|t| - 1];
      InsertedElements(front, x);
      assert t == front + [last];
      assert multiset(t) == multiset(front) + multiset{last};
    }
  }

  method Sort(s: seq<nat>) returns (t: seq<nat>)
    ensures Sorted(t) && multiset(t) == multiset(s)
  {
    t := [];
    for i := 0 to |s|
      invariant |t| == i && Sorted(t) && multiset(t) == multiset(s[..i])
    {
      assert s[..i + 1] == s[..i] + [s[i]];
      InsertedSorted(t, s[i], if t != [] && t[i - 1] > s[i] then t[i - 1] else s[i]);
      InsertedElements(t, s[i]);
      t := Inserted(t, s[i]);
    }
    assert s[..|s|] == s;
  }

  /** Collapses runs of equal numbers. */
  method Unique(s: seq<nat>) returns (t: seq<nat>)
    requires Sorted(s)
    ensures Increasing(t) && Elements(t) == Elements(s)
  {
    t := [];
    for i := 0 to |s|
      invariant Increasing(t) && Elements(t) == Elements(s[..i])
      invariant t == [] <==> i == 0
      invariant i > 0 ==> t[|t| - 1] == s[i - 1]
    {
      assert s[..i + 1] == s[..i] + [s[i]];
      ElementsAppend(s[..i], s[i]);
      if i == 0 || t[|t| - 1] != s[i] {
        ElementsAppend(t, s[i]);
        t := t + [s[i]];
      }
    }
    assert s[..|s|] == s;
  }

  lemma ElementsAppend(s: seq<nat>, x: nat)
    ensures Elements(s + [x]) == Elements(s) + {x}
  {
    assert forall i :: 0 <= i < |s| ==> (s + [x])[i] == s[i];
    assert (s + [x])[|s|] == x;
  }

  method OnCpuDiscoveryDone(paths: seq<string>) returns (result: Discovery)
    ensures result == Discover(paths)
  {
    hide SocketNumber, Decimal, UpTo, Elements;
    if paths == [] {
      return NoCpus;
    }
    var ids: seq<nat> := [];
    for i := 0 to |paths|
      invariant |ids| == i && forall k :: 0 <= k < i ==> SocketNumber(paths[k]) == Some(ids[k])
    {
      var id := SocketNumber(paths[i]);
      if id == None {
        return ParseFailed;
      }
      ids := ids + [id.value];
    }
    SameNumbers(paths, ids);
    var sorted := Sort(ids);
    SameElements(ids, sorted);
    var unique := Unique(sorted);
    IncreasingUpTo(unique);
    for i := 0 to |unique|
      invariant forall k :: 0 <= k < i ==> unique[k] == k
    {
      if unique[i] != i {
        return NonContiguous;
      }
    }
    var list := "";
    for i := 0 to |unique|
      invariant list == SocketList(i)
    {
      if i > 0 {
        list := list + ",";
      }
      list := list + Decimal(unique[i]);
    }
    return Sockets(list);
  }

  lemma SameNumbers(paths: seq<string>, ids: seq<nat>)
    requires |ids| == |paths| && forall k :: 0 <= k < |ids| ==> SocketNumber(paths[k]) == Some(ids[k])
    ensures AllParse(paths) && Numbers(paths) == Elements(ids)
  {
    hide SocketNumber;
  }

  lemma SameElements(s: seq<nat>, t: seq<nat>)
    requires multiset(s) == multiset(t)
    ensures Elements(s) == Elements(t)
  {
    forall x
      ensures x in Elements(s) <==> x in Elements(t)
    {
      assert x in Elements(s) <==> x in multiset(s);
      assert x in Elements(t) <==> x in multiset(t);
    }
  }

  /** Increasing numbers are as many as their set, which is 0 .. n-1 exactly when each is its index. */
  lemma IncreasingUpTo(s: seq<nat>)
    requires Increasing(s)
    ensures |Elements(s)| == |s|
    ensures Elements(s) == UpTo(|s|) <==> forall i :: 0 <= i < |s| ==> s[i] == i
  {
    CountIncreasing(s);
    if Elements(s) == UpTo(|s|) && exists i :: 0 <= i < |s| && s[i] != i {
      var i :| 0 <= i < |s| && s[i] != i;
      AtLeastIndex(s, i);
      var last := s[|s| - 1];
      assert last in Elements(s);
      GrowsFrom(s, i, |s| - 1);
      assert false;
    }
    if forall i :: 0 <= i < |s| ==> s[i] == i {
      forall x | x in UpTo(|s|)
        ensures x in Elements(s)
      {
        assert s[x] == x;
      }
    }
  }

  lemma {:induction false} CountIncreasing(s: seq<nat>)
    requires Increasing(s)
    ensures |Elements(s)| == |s|
  {
    if s != [] {
      var front, x := s[..|s| - 1], s[|s| - 1];
      CountIncreasing(front);
      assert s == front + [x];
      ElementsAppend(front, x);
      assert x !in Elements(front);
    } else {
      assert Elements(s) == {};
    }
  }

  lemma {:induction false} AtLeastIndex(s: seq<nat>, i: nat)
    requires Increasing(s) && i < |s|
    ensures s[i] >= i
  {
    if i > 0 {
      AtLeastIndex(s, i - 1);
    }
  }

  lemma {:induction false} GrowsFrom(s: seq<nat>, i: nat, j: nat)
    requires Increasing(s) && i <= j < |s|
    ensures s[j] - s[i] >= j - i
  {
    if i < j {
      GrowsFrom(s, i, j - 1);
    }
  }

  // ----- What discovery means -----

  /** Discovery succeeds exactly when there are paths, every one parses and the numbers are 0 .. n-1
      for some n, and then the list is that of n. */
  lemma SucceedsWhenContiguous(paths: seq<string>)
    ensures Discover(paths).Sockets?
       <==> paths != [] && AllParse(paths) && exists n: nat :: n > 0 && Numbers(paths) == UpTo(n)
    ensures forall n: nat :: paths != [] && AllParse(paths) && Numbers(paths) == UpTo(n) ==>
      Discover(paths) == Sockets(SocketList(n))
  {
    hide SocketNumber, SocketList, UpTo;
    if paths != [] && AllParse(paths) {
      assert SocketNumber(paths[0]).value in Numbers(paths);
      var n := |Numbers(paths)|;
      assert n > 0 && Discover(paths) == FromNumbers(Numbers(paths));
      assert Numbers(paths) == UpTo(n) <==> exists m: nat :: m > 0 && Numbers(paths) == UpTo(m);
    }
  }

  /** Neither the order of the paths nor duplicates matter. */
  lemma OnlyTheSetMatters(paths: seq<string>, others: seq<string>)
    requires paths != [] && others != [] && AllParse(paths) && AllParse(others)
    requires Numbers(paths) == Numbers(others)
    ensures Discover(paths) == Discover(others)
  {
  }

  /** Splits at commas and reads each part. */
  function ReadList(list: string): seq<Option<nat>> {
    var last := After(list, ',');
    var number := if last != "" && AllDigits(last) then Some(Value(last)) else None;
    if ',' !in list then [number] else (AfterIsShorter(list, ','); ReadList(list[..|list| - |last| - 1]) + [number])
  }

  lemma {:induction false} AfterIsShorter(s: string, c: char)
    ensures |After(s, c)| <= |s|
    ensures c in s ==> |After(s, c)| < |s|
  {
    if s != "" && s[|s| - 1] != c {
      AfterIsShorter(s[..|s| - 1], c);
    }
  }

  lemma ReadAppend(front: string, digits: string)
    requires AllDigits(digits) && digits != ""
    ensures ReadList(digits) == [Some(Value(digits))]
    ensures ReadList(front + "," + digits) == ReadList(front) + [Some(Value(digits))]
  {
    hide Value;
    NoDigit(digits);
    AfterAppend("", ',', digits);
    assert "" + digits == digits;
    var list := front + "," + digits;
    AfterAppend(front + ",", ',', digits);
    assert (front + ",")[|front|] == ',' && list[|front|] == ',';
    assert After(list, ',') == digits;
    assert list[..|list| - |digits| - 1] == front;
  }

  /** Reading the list gives back the sockets. */
  lemma {:induction false} ListReadsBack(n: nat)
    requires n > 0
    ensures ReadList(SocketList(n)) == seq(n, i requires 0 <= i < n => Some(i))
  {
    hide Value, Decimal, ReadList;
    ValueOfDecimal(n - 1);
    if n > 1 {
      ListReadsBack(n - 1);
      ReadAppend(SocketList(n - 1), Decimal(n - 1));
    } else {
      ReadAppend("", Decimal(0));
    }
  }
}
