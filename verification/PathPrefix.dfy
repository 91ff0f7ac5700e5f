/** Prefix lookup in a sorted path list: pathsWithPrefix of src/utils/path.ts. */
module PathPrefix {
  /** Code-unit order, the order of JavaScript's `<` and default sort on strings. */
  predicate Less(a: string, b: string) {
    b != [] && (a == [] || a[0] < b[0] || (a[0] == b[0] && Less(a[1..], b[1..])))
  }

  predicate Sorted(paths: seq<string>) {
    forall i, j | 0 <= i < j < |paths| :: !Less(paths[j], paths[i])
  }

  predicate HasPrefix(s: string, prefix: string) {
    |prefix| <= |s| && s[..|prefix|] == prefix
  }

  /** The elements with the prefix, in their order. */
  function WithPrefix(paths: seq<string>, prefix: string): seq<string> {
    if paths == [] then []
    else (if HasPrefix(paths[0], prefix) then [paths[0]] else []) + WithPrefix(paths[1..], prefix)
  }

  lemma {:induction false} WithPrefixMembers(paths: seq<string>, prefix: string)
    ensures forall p :: p in WithPrefix(paths, prefix) <==> p in paths && HasPrefix(p, prefix)
  {
    if paths != [] {
      WithPrefixMembers(paths[1..], prefix);
    }
  }

  lemma {:induction false} NotLessThenLess(a: string, b: string, c: string)
    requires !Less(b, a) && Less(b, c)
    ensures Less(a, c)
  {
    if a != [] && b != [] && a[0] == b[0] && b[0] == c[0] {
      NotLessThenLess(a[1..], b[1..], c[1..]);
    }
  }

  lemma {:induction false} PrefixTail(s: string, prefix: string)
    requires prefix != []
    ensures HasPrefix(s, prefix) <==> s != [] && s[0] == prefix[0] && HasPrefix(s[1..], prefix[1..])
  {
    if |prefix| <= |s| {
      assert s[..|prefix|] == [s[0]] + s[1..][..|prefix| - 1];
      assert prefix == [prefix[0]] + prefix[1..];
    }
  }

  /** Between the prefix and a string that has it, every string has it. */
  lemma {:induction false} PrefixesAreContiguous(x: string, y: string, prefix: string)
    requires HasPrefix(y, prefix) && !Less(x, prefix) && !Less(y, x)
    ensures HasPrefix(x, prefix)
  {
    if prefix != [] {
      PrefixTail(x, prefix);
      PrefixTail(y, prefix);
      PrefixesAreContiguous(x[1..], y[1..], prefix[1..]);
    }
  }

  lemma {:induction false} PrefixIsNotLess(s: string, prefix: string)
    requires HasPrefix(s, prefix)
    ensures !Less(s, prefix)
  {
    if prefix != [] {
      PrefixTail(s, prefix);
      PrefixIsNotLess(s[1..], prefix[1..]);
    }
  }

  lemma {:induction false} WithPrefixAt(paths: seq<string>, prefix: string, low: nat, high: nat)
    requires low <= high <= |paths|
    requires forall k | 0 <= k < low :: !HasPrefix(paths[k], prefix)
    requires forall k | low <= k < high :: HasPrefix(paths[k], prefix)
    requires forall k | high <= k < |paths| :: !HasPrefix(paths[k], prefix)
    ensures WithPrefix(paths, prefix) == paths[low..high]
  {
    if paths != [] {
      var less, more := if low > 0 then low - 1 else 0, if high > 0 then high - 1 else 0;
      assert forall k | 0 < k < |paths| :: paths[k] == paths[1..][k - 1];
      WithPrefixAt(paths[1..], prefix, less, more);
      if low == 0 && high > 0 {
        assert paths[0..high] == [paths[0]] + paths[1..][0..more];
      } else if low > 0 {
        assert paths[low..high] == paths[1..][less..more];
      }
    }
  }

  /** Binary search for the lower bound, then take while the prefix holds. */
  method PathsWithPrefix(sortedPaths: seq<string>, prefix: string) returns (matches: seq<string>)
    requires Sorted(sortedPaths)
    ensures matches == WithPrefix(sortedPaths, prefix)
  {
    var low, high := 0, |sortedPaths|;
    while low < high
      invariant 0 <= low <= high <= |sortedPaths|
      invariant forall k | 0 <= k < low :: Less(sortedPaths[k], prefix)
      invariant forall k | high <= k < |sortedPaths| :: !Less(sortedPaths[k], prefix)
    {
      var middle := (low + high) / 2;
      if Less(sortedPaths[middle], prefix) {
        forall k | 0 <= k < middle ensures Less(sortedPaths[k], prefix) {
          NotLessThenLess(sortedPaths[k], sortedPaths[middle], prefix);
        }
        low := middle + 1;
      } else {
        forall k | middle < k < |sortedPaths| ensures !Less(sortedPaths[k], prefix) {
          if Less(sortedPaths[k], prefix) {
            NotLessThenLess(sortedPaths[middle], sortedPaths[k], prefix);
          }
        }
        high := middle;
      }
    }
    forall k | 0 <= k < low ensures !HasPrefix(sortedPaths[k], prefix) {
      if HasPrefix(sortedPaths[k], prefix) {
        PrefixIsNotLess(sortedPaths[k], prefix);
      }
    }
    matches := [];
    var index := low;
    while index < |sortedPaths| && HasPrefix(sortedPaths[index], prefix)
      invariant low <= index <= |sortedPaths|
      invariant matches == sortedPaths[low..index]
      invariant forall k | low <= k < index :: HasPrefix(sortedPaths[k], prefix)
    {
      matches := matches + [sortedPaths[index]];
      index := index + 1;
    }
    forall k | index <= k < |sortedPaths| ensures !HasPrefix(sortedPaths[k], prefix) {
      if HasPrefix(sortedPaths[k], prefix) && k > index {
        PrefixesAreContiguous(sortedPaths[index], sortedPaths[k], prefix);
      }
    }
    WithPrefixAt(sortedPaths, prefix, low, index);
  }
}
