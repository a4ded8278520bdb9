/**
 * The PHP built-ins the core relies on, with the semantics the resolution logic depends on:
 * `empty()` on strings and on dynamic values, `trim()` with its default character list,
 * `explode()` on a one-character delimiter and `array_filter()` with a callback.
 */
module Php {

  // ---------------------------------------------------------------------------
  // empty()

  /** `empty($s)` for a string (or null, which the model writes as ""): true for "" and for "0". */
  predicate IsEmpty(s: string)
    ensures IsEmpty(s) <==> |s| == 0 || (|s| == 1 && s[0] == '0')
  {
    s == "" || s == "0"
  }

  /** A dynamically typed PHP value, as found in configuration arrays. */
  datatype Value =
    | Null
    | Bool(b: bool)
    | Int(i: int)
    | Float(f: real)
    | Str(s: string)
    | Arr(entries: map<string, Value>)

  /** `empty($v)`: null, false, 0, 0.0, "", "0" and the empty array. */
  predicate IsEmptyValue(v: Value)
    ensures v.Str? ==> (IsEmptyValue(v) <==> IsEmpty(v.s))
    ensures v.Arr? ==> (IsEmptyValue(v) <==> |v.entries| == 0)
    ensures v.Null? ==> IsEmptyValue(v)
    ensures v.Bool? ==> (IsEmptyValue(v) <==> !v.b)
    ensures v.Int? ==> (IsEmptyValue(v) <==> v.i == 0)
    ensures v.Float? ==> (IsEmptyValue(v) <==> v.f == 0.0)
  {
    match v
    case Null => true
    case Bool(b) => !b
    case Int(i) => i == 0
    case Float(f) => f == 0.0
    case Str(s) => IsEmpty(s)
    case Arr(m) => m == map[]
  }

  /**
   * `$v[$key]` as `empty()` and `isset()` see it: the entry when `$v` is an array holding
   * `$key`, null otherwise (a missing key, or an offset into a scalar).
   */
  function Offset(v: Value, key: string): (r: Value)
    ensures v.Arr? && key in v.entries ==> r == v.entries[key]
    ensures !(v.Arr? && key in v.entries) ==> r == Null
  {
    if v.Arr? && key in v.entries then v.entries[key] else Null
  }

  /** `$m[$key]` on an array: null when the key is missing. */
  function Lookup(m: map<string, Value>, key: string): (r: Value)
    ensures key in m ==> r == m[key]
    ensures key !in m ==> r == Null
  {
    if key in m then m[key] else Null
  }

  /**
   * `array_replace($base, $replacements)` on string-keyed arrays: every key of either array,
   * with the replacement's value where it has the key. Nested arrays are replaced whole.
   */
  function ArrayReplace(base: map<string, Value>, replacements: map<string, Value>): (r: map<string, Value>)
    ensures r.Keys == base.Keys + replacements.Keys
    ensures forall k :: k in replacements ==> r[k] == replacements[k]
    ensures forall k :: k in base && k !in replacements ==> r[k] == base[k]
  {
    base + replacements
  }

  // ---------------------------------------------------------------------------
  // trim()

  /** The characters `trim()` strips by default: space, tab, LF, CR, NUL and vertical tab. */
  const TRIM_CHARACTERS: set<char> := {' ', '\t', '\n', '\r', '\0', '\U{B}'}

  predicate IsTrimmable(c: char) {
    c in TRIM_CHARACTERS
  }

  predicate AllTrimmable(s: string) {
    forall i :: 0 <= i < |s| ==> IsTrimmable(s[i])
  }

  /** The number of characters `trim()` removes from the front of `s`. */
  function LeadingTrimmable(s: string): (n: nat)
    ensures n <= |s|
    ensures AllTrimmable(s[..n])
    ensures n < |s| ==> !IsTrimmable(s[n])
  {
    if |s| > 0 && IsTrimmable(s[0]) then
      var n := 1 + LeadingTrimmable(s[1..]);
      assert s[..n] == [s[0]] + s[1..][..n - 1];
      n
    else
      0
  }

  /** The number of characters `trim()` removes from the end of `s`. */
  function TrailingTrimmable(s: string): (n: nat)
    ensures n <= |s|
    ensures forall i :: |s| - n <= i < |s| ==> IsTrimmable(s[i])
    ensures n < |s| ==> !IsTrimmable(s[|s| - 1 - n])
  {
    if |s| > 0 && IsTrimmable(s[|s| - 1]) then
      var front := s[..|s| - 1];
      var n := 1 + TrailingTrimmable(front);
      assert forall i :: |s| - n <= i < |s| - 1 ==> s[i] == front[i];
      n
    else
      0
  }

  /** `trim($s)`: `s` without its leading and trailing trimmable characters. */
  function Trim(s: string): (r: string)
    ensures |r| <= |s|
    ensures r != [] ==> !IsTrimmable(r[0]) && !IsTrimmable(r[|r| - 1])
    ensures r == [] <==> AllTrimmable(s)
  {
    var lead := LeadingTrimmable(s);
    var rest := s[lead..];
    var r := rest[..|rest| - TrailingTrimmable(rest)];
    TrimEmptyExactlyWhenAllTrimmable(s, lead, TrailingTrimmable(rest));
    r
  }

  /** Removing both trimmable runs leaves nothing exactly when every character is trimmable. */
  lemma TrimEmptyExactlyWhenAllTrimmable(s: string, lead: nat, tail: nat)
    requires lead == LeadingTrimmable(s)
    requires tail == TrailingTrimmable(s[lead..])
    ensures lead + tail == |s| <==> AllTrimmable(s)
  {
    var rest := s[lead..];
    if lead + tail == |s| {
      forall i | 0 <= i < |s|
        ensures IsTrimmable(s[i])
      {
        if i < lead {
          assert s[i] == s[..lead][i];
        }
      }
    }
    if AllTrimmable(s) {
      assert lead == |s|;
    }
  }

  /**
   * The independent description of `trim()`: whenever `s` is split into a trimmable prefix,
   * a middle that neither starts nor ends with a trimmable character, and a trimmable
   * suffix, `trim($s)` is exactly that middle.
   */
  lemma TrimCharacterization(s: string, prefix: string, middle: string, suffix: string)
    requires s == prefix + middle + suffix
    requires AllTrimmable(prefix) && AllTrimmable(suffix)
    requires middle != [] ==> !IsTrimmable(middle[0]) && !IsTrimmable(middle[|middle| - 1])
    ensures Trim(s) == middle
  {
    var lead := LeadingTrimmable(s);
    if middle == [] {
      assert AllTrimmable(s) by {
        forall i | 0 <= i < |s| ensures IsTrimmable(s[i]) {
          if i < |prefix| { assert s[i] == prefix[i]; } else { assert s[i] == suffix[i - |prefix|]; }
        }
      }
    } else {
      assert lead == |prefix| by {
        assert s[|prefix|] == middle[0];
      }
      var rest := s[lead..];
      assert rest == middle + suffix;
      var trail := TrailingTrimmable(rest);
      assert trail == |suffix| by {
        assert rest[|middle| - 1] == middle[|middle| - 1];
      }
      assert rest[..|rest| - trail] == middle;
    }
  }

  /** A string that neither starts nor ends with a trimmable character is left as it is. */
  lemma TrimLeavesTrimmedString(s: string)
    requires s != [] ==> !IsTrimmable(s[0]) && !IsTrimmable(s[|s| - 1])
    ensures Trim(s) == s
  {
    assert s == [] + s + [];
    TrimCharacterization(s, [], s, []);
  }

  /** Trimming is idempotent. */
  lemma TrimIdempotent(s: string)
    ensures Trim(Trim(s)) == Trim(s)
  {
    var t := Trim(s);
    assert t == [] + t + [];
    TrimCharacterization(t, [], t, []);
  }

  // ---------------------------------------------------------------------------
  // explode() and its inverse implode()

  /** `explode($separator, $s)` for a one-character separator: the pieces between separators, untrimmed. */
  function Explode(separator: char, s: string): (parts: seq<string>)
    ensures |parts| >= 1
    ensures forall k :: 0 <= k < |parts| ==> separator !in parts[k]
  {
    if s == [] then
      [[]]
    else
      var rest := Explode(separator, s[1..]);
      if s[0] == separator then [[]] + rest
      else [[s[0]] + rest[0]] + rest[1..]
  }

  /** `implode($separator, $parts)`. */
  function Implode(separator: char, parts: seq<string>): string
  {
    if |parts| == 0 then []
    else if |parts| == 1 then parts[0]
    else parts[0] + [separator] + Implode(separator, parts[1..])
  }

  /** Gluing the pieces back with the separator gives the original string. */
  lemma {:induction false} ImplodeExplode(separator: char, s: string)
    ensures Implode(separator, Explode(separator, s)) == s
  {
    if s != [] {
      var rest := Explode(separator, s[1..]);
      ImplodeExplode(separator, s[1..]);
      if s[0] == separator {
        assert Explode(separator, s) == [[]] + rest;
        assert ([[]] + rest)[1..] == rest;
      } else {
        var parts := [[s[0]] + rest[0]] + rest[1..];
        assert Explode(separator, s) == parts;
        assert parts[1..] == rest[1..];
        if |rest| > 1 {
          assert Implode(separator, rest) == rest[0] + [separator] + Implode(separator, rest[1..]);
        }
        assert s == [s[0]] + s[1..];
      }
    }
  }

  /** A separator-free word in front of `s` is glued onto the first piece of `s`. */
  lemma {:induction false} ExplodePrefix(separator: char, word: string, s: string)
    requires separator !in word
    ensures var parts := Explode(separator, s);
            Explode(separator, word + s) == [word + parts[0]] + parts[1..]
  {
    var parts := Explode(separator, s);
    if word != [] {
      ExplodePrefix(separator, word[1..], s);
      assert (word + s)[1..] == word[1..] + s;
      assert word[0] in word;
      var rest := Explode(separator, word[1..] + s);
      assert rest == [word[1..] + parts[0]] + parts[1..];
      assert Explode(separator, word + s) == [[word[0]] + rest[0]] + rest[1..];
      assert rest[0] == word[1..] + parts[0] && rest[1..] == parts[1..];
      assert [word[0]] + (word[1..] + parts[0]) == word + parts[0];
    } else {
      assert word + s == s && word + parts[0] == parts[0];
      assert parts == [parts[0]] + parts[1..];
    }
  }

  /** A string without the separator explodes to itself alone. */
  lemma ExplodeWithoutSeparator(separator: char, s: string)
    requires separator !in s
    ensures Explode(separator, s) == [s]
  {
    ExplodePrefix(separator, s, []);
    assert s + [] == s;
  }

  /** A leading separator closes an empty first piece. */
  lemma ExplodeAfterSeparator(separator: char, s: string)
    ensures Explode(separator, [separator] + s) == [[]] + Explode(separator, s)
  {
    assert ([separator] + s)[1..] == s;
  }

  /** Exploding separator-free pieces glued with the separator gives the pieces back. */
  lemma {:induction false} ExplodeImplode(separator: char, parts: seq<string>)
    requires |parts| >= 1
    requires forall k :: 0 <= k < |parts| ==> separator !in parts[k]
    ensures Explode(separator, Implode(separator, parts)) == parts
  {
    if |parts| == 1 {
      ExplodeWithoutSeparator(separator, parts[0]);
    } else {
      var tail := Implode(separator, parts[1..]);
      ExplodeImplode(separator, parts[1..]);
      ExplodeAfterSeparator(separator, tail);
      var e := [[]] + parts[1..];
      ExplodePrefix(separator, parts[0], [separator] + tail);
      assert e[0] == [] && e[1..] == parts[1..];
      assert parts[0] + e[0] == parts[0];
      assert Implode(separator, parts) == parts[0] + ([separator] + tail);
      assert parts == [parts[0]] + parts[1..];
    }
  }

  // ---------------------------------------------------------------------------
  // array_filter()

  /**
   * `array_filter($s, $keep)` on a list, with the kept elements renumbered from zero: the
   * elements the callback accepts, in their original order.
   */
  function ArrayFilter<T>(keep: T -> bool, s: seq<T>): (r: seq<T>)
    ensures |r| <= |s|
    ensures forall k :: 0 <= k < |r| ==> keep(r[k]) && r[k] in s
    ensures forall k :: 0 <= k < |s| && keep(s[k]) ==> s[k] in r
  {
    if s == [] then []
    else (if keep(s[0]) then [s[0]] else []) + ArrayFilter(keep, s[1..])
  }

  /** An element of the input is in the filtered result exactly when the callback accepts it. */
  lemma ArrayFilterMembership<T>(keep: T -> bool, s: seq<T>)
    ensures forall x :: x in s ==> (x in ArrayFilter(keep, s) <==> keep(x))
  {
    var r := ArrayFilter(keep, s);
    forall x | x in s
      ensures x in r <==> keep(x)
    {
      if x in r {
        var k :| 0 <= k < |r| && r[k] == x;
      }
      if keep(x) {
        var k :| 0 <= k < |s| && s[k] == x;
      }
    }
  }

  /** Filtering commutes with concatenation, so relative order is kept. */
  lemma {:induction false} ArrayFilterConcat<T>(keep: T -> bool, a: seq<T>, b: seq<T>)
    ensures ArrayFilter(keep, a + b) == ArrayFilter(keep, a) + ArrayFilter(keep, b)
  {
    if a != [] {
      ArrayFilterConcat(keep, a[1..], b);
      assert (a + b)[1..] == a[1..] + b;
    } else {
      assert a + b == b;
    }
  }

  /** Nothing is dropped when the callback accepts every element. */
  lemma {:induction false} ArrayFilterKeepsAll<T>(keep: T -> bool, s: seq<T>)
    requires forall k :: 0 <= k < |s| ==> keep(s[k])
    ensures ArrayFilter(keep, s) == s
  {
    if s != [] {
      ArrayFilterKeepsAll(keep, s[1..]);
    }
  }
}
