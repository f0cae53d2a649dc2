/** The framework's global helper functions: identifier case conversion
    and small operations on PHP arrays. */
module Core {
  import opened Ascii
  import opened Arrays

  // ---------------------------------------------------------------------
  // Identifier case conversion
  // ---------------------------------------------------------------------

  /** `camel_upper`: drops every underscore and upper-cases the character
      that follows an underscore; all other characters, including the
      first one, are kept as they are. */
  function CamelUpper(s: string): (r: string)
    ensures '_' !in r
    ensures |r| <= |s|
    ensures '_' !in s ==> r == s
    ensures |s| > 0 && s[0] != '_' ==> |r| > 0 && r[0] == s[0]
  {
    if |s| == 0 then ""
    else if s[0] != '_' then [s[0]] + CamelUpper(s[1..])
    else if |s| == 1 then ""
    else if s[1] == '_' then CamelUpper(s[1..])
    else [ToUpper(s[1])] + CamelUpper(s[2..])
  }

  /** `CamelUpper` works piece by piece, as long as the cut does not fall
      right after an underscore. */
  lemma {:induction false} CamelUpperAppend(a: string, b: string)
    requires |a| == 0 || a[|a| - 1] != '_'
    ensures CamelUpper(a + b) == CamelUpper(a) + CamelUpper(b)
  {
    if |a| == 0 {
      assert a + b == b;
    } else if a[0] != '_' {
      assert (a + b)[1..] == a[1..] + b;
      CamelUpperAppend(a[1..], b);
    } else {
      assert |a| >= 2;
      if a[1] == '_' {
        assert (a + b)[1..] == a[1..] + b;
        CamelUpperAppend(a[1..], b);
      } else {
        assert (a + b)[2..] == a[2..] + b;
        CamelUpperAppend(a[2..], b);
      }
    }
  }

  /** An underscore followed by a word becomes the word with its first
      letter upper-cased, whatever came before. */
  lemma CamelUpperNextWord(a: string, w: string)
    requires |a| == 0 || a[|a| - 1] != '_'
    requires |w| > 0 && '_' !in w
    ensures CamelUpper(a + ("_" + w)) == CamelUpper(a) + Pascal(w)
  {
    var t := "_" + w;
    CamelUpperAppend(a, t);
    assert t[1] == w[0] && t[2..] == w[1..];
    assert '_' !in w[1..];
    assert CamelUpper(t) == [ToUpper(w[0])] + w[1..];
  }

  /** `camel_lower`: lower-cases the first character, keeps the rest. */
  function CamelLower(s: string): (r: string)
    ensures |r| == |s|
    ensures |s| > 0 ==> r[0] == ToLower(s[0]) && r[1..] == s[1..]
  {
    if |s| == 0 then s else [ToLower(s[0])] + s[1..]
  }

  /** `pascal`: upper-cases the first character, keeps the rest. */
  function Pascal(s: string): (r: string)
    ensures |r| == |s|
    ensures |s| > 0 ==> r[0] == ToUpper(s[0]) && r[1..] == s[1..]
  {
    if |s| == 0 then s else [ToUpper(s[0])] + s[1..]
  }

  /** `pascal` undoes `camel_lower` exactly when the first character was
      not a lower-case letter. */
  lemma PascalUndoesCamelLower(s: string)
    ensures Pascal(CamelLower(s)) == s <==> |s| == 0 || !IsLower(s[0])
  {
  }

  /** `camel_lower` undoes `pascal` exactly when the first character was
      not an upper-case letter. */
  lemma CamelLowerUndoesPascal(s: string)
    ensures CamelLower(Pascal(s)) == s <==> |s| == 0 || !IsUpper(s[0])
  {
  }

  /** A snake_case identifier: a run of lower-case letters, digits and
      underscores in which every underscore is followed by a lower-case
      letter. */
  predicate SnakeIdent(s: string)
  {
    if |s| == 0 then true
    else if s[0] == '_' then |s| >= 2 && IsLower(s[1]) && SnakeIdent(s[2..])
    else (IsLower(s[0]) || IsDigit(s[0])) && SnakeIdent(s[1..])
  }

  /** Reference inverse of `CamelUpper`: every upper-case letter becomes an
      underscore followed by its lower-case form. */
  function SnakeCase(s: string): (r: string)
    ensures forall i :: 0 <= i < |r| ==> !IsUpper(r[i])
    ensures |r| >= |s|
  {
    if |s| == 0 then ""
    else if IsUpper(s[0]) then ['_', ToLower(s[0])] + SnakeCase(s[1..])
    else [s[0]] + SnakeCase(s[1..])
  }

  /** Converting a snake_case identifier to camelCase loses nothing: the
      reference inverse gives it back. */
  lemma {:induction false} SnakeCaseUndoesCamelUpper(s: string)
    requires SnakeIdent(s)
    ensures SnakeCase(CamelUpper(s)) == s
  {
    if |s| == 0 {
    } else if s[0] != '_' {
      SnakeCaseUndoesCamelUpper(s[1..]);
      var t := [s[0]] + CamelUpper(s[1..]);
      assert t[0] == s[0] && t[1..] == CamelUpper(s[1..]);
      assert SnakeCase(t) == [s[0]] + SnakeCase(CamelUpper(s[1..]));
      assert s == [s[0]] + s[1..];
    } else {
      assert IsLower(s[1]);
      SnakeCaseUndoesCamelUpper(s[2..]);
      var t := [ToUpper(s[1])] + CamelUpper(s[2..]);
      assert t[0] == ToUpper(s[1]) && t[1..] == CamelUpper(s[2..]);
      assert SnakeCase(t) == ['_', ToLower(ToUpper(s[1]))] + SnakeCase(CamelUpper(s[2..]));
      assert s == ['_', s[1]] + s[2..];
    }
  }

  /** Conversely, any identifier without underscores is recovered by
      `CamelUpper` from its snake_case form. */
  lemma {:induction false} CamelUpperUndoesSnakeCase(c: string)
    requires '_' !in c
    ensures CamelUpper(SnakeCase(c)) == c
  {
    if |c| > 0 {
      var tail := SnakeCase(c[1..]);
      assert '_' !in c[1..];
      CamelUpperUndoesSnakeCase(c[1..]);
      if IsUpper(c[0]) {
        var t := ['_', ToLower(c[0])] + tail;
        assert SnakeCase(c) == t;
        assert t[1] != '_' && t[2..] == tail;
        assert CamelUpper(t) == [ToUpper(ToLower(c[0]))] + CamelUpper(tail);
      } else {
        var t := [c[0]] + tail;
        assert SnakeCase(c) == t;
        assert t[1..] == tail;
        assert CamelUpper(t) == [c[0]] + CamelUpper(tail);
      }
      assert c == [c[0]] + c[1..];
    }
  }

  // ---------------------------------------------------------------------
  // Array helpers
  // ---------------------------------------------------------------------

  /** `array_key_value`: the value stored under `k`; a missing key yields
      `None`. Works the same for string and integer keys. */
  function ArrayKeyValue<V(!new)>(a: AssocArray<V>, k: Key): (r: Option<V>)
    ensures r.Some? <==> k in Keys(a)
    ensures forall v :: r == Some(v) <==> (k, v) in a
  {
    LookupEntry(a, k);
    Lookup(a, k)
  }

  /** `array_key_filter`: applies `f` to every value; keys and their order
      are kept. */
  function ArrayKeyFilter<V, W>(a: AssocArray<V>, f: V -> W): (r: AssocArray<W>)
    ensures |r| == |a|
    ensures forall i :: 0 <= i < |a| ==> r[i].0 == a[i].0 && r[i].1 == f(a[i].1)
    ensures Keys(r) == Keys(a)
  {
    if |a| == 0 then []
    else
      var rest := ArrayKeyFilter(a[1..], f);
      var r := [(a[0].0, f(a[0].1))] + rest;
      assert r[1..] == rest;
      r
  }

  /** Looking a key up after `array_key_filter` is looking it up before and
      applying `f`. */
  lemma {:induction false} ArrayKeyFilterLookup<V, W>(a: AssocArray<V>, f: V -> W, k: Key)
    ensures Lookup(ArrayKeyFilter(a, f), k) ==
            match Lookup(a, k) case Some(v) => Some(f(v)) case None => None
  {
    if |a| > 0 {
      var r := ArrayKeyFilter(a, f);
      assert r[1..] == ArrayKeyFilter(a[1..], f);
      ArrayKeyFilterLookup(a[1..], f, k);
    }
  }

  /** The values of `s`, in order, under consecutive integer keys from `n`. */
  function Numbered<V>(n: int, s: seq<(Key, V)>): (r: seq<(Key, V)>)
    ensures |r| == |s|
    decreases |s|
  {
    if |s| == 0 then [] else [(IntKey(n), s[0].1)] + Numbered(n + 1, s[1..])
  }

  /** The j-th entry of `Numbered(n, s)` holds the j-th value of `s` under key `n + j`. */
  lemma {:induction false} NumberedAt<V>(n: int, s: seq<(Key, V)>, j: nat)
    requires j < |s|
    ensures Numbered(n, s)[j] == (IntKey(n + j), s[j].1)
    decreases j
  {
    if j > 0 {
      NumberedAt(n + 1, s[1..], j - 1);
    }
  }

  /** `array_append`: keeps `first` as it is and appends the values of
      `second`, in order, each as `$first[] = $v` does: under the next free
      integer key of `first` (0 when it has no non-negative integer key),
      counting up. The keys of `second` are not kept. */
  function ArrayAppend<V>(first: AssocArray<V>, second: AssocArray<V>): (r: AssocArray<V>)
    ensures r == first + Numbered(NextIndex(first), second)
    decreases |second|
  {
    if |second| == 0 then first
    else
      var p := Push(first, second[0].1);
      var r := ArrayAppend(p, second[1..]);
      AppendStep(first, second, NextIndex(first), p, r);
      r
  }

  /** One step of `ArrayAppend`: pushing the first value of `second`, then
      the rest, numbers all of `second` from `n`. */
  lemma AppendStep<V>(first: seq<(Key, V)>, second: seq<(Key, V)>, n: int, p: seq<(Key, V)>, r: seq<(Key, V)>)
    requires |second| > 0
    requires p == first + [(IntKey(n), second[0].1)]
    requires r == p + Numbered(n + 1, second[1..])
    ensures r == first + Numbered(n, second)
  {
  }

  /** After `array_append` every key of `first` still finds its value. */
  lemma ArrayAppendKeepsFirst<V>(first: AssocArray<V>, second: AssocArray<V>, k: Key)
    requires k in Keys(first)
    ensures Lookup(ArrayAppend(first, second), k) == Lookup(first, k)
  {
    KeysAt(first, k);
    var i :| 0 <= i < |first| && first[i].0 == k;
    LookupAt(first, i);
    LookupInPrefix(first, ArrayAppend(first, second), i);
  }

  /** An entry of a prefix of `r` is found in `r`. */
  lemma LookupInPrefix<V>(first: seq<(Key, V)>, r: AssocArray<V>, i: nat)
    requires i < |first| <= |r| && r[..|first|] == first
    ensures Lookup(r, first[i].0) == Some(first[i].1)
  {
    assert r[i] == first[i];
    LookupAt(r, i);
  }

  /** After `array_append` the j-th value of `second` is found under the
      j-th fresh integer key. */
  lemma ArrayAppendFindsSecond<V>(first: AssocArray<V>, second: AssocArray<V>, j: nat)
    requires j < |second|
    ensures Lookup(ArrayAppend(first, second), IntKey(NextIndex(first) + j)) == Some(second[j].1)
  {
    var r: seq<(Key, V)> := ArrayAppend(first, second);
    LookupNumbered(first, second, NextIndex(first), r, j);
  }

  /** The j-th numbered value is found under key `n + j`. */
  lemma LookupNumbered<V>(first: seq<(Key, V)>, second: seq<(Key, V)>, n: int, r: seq<(Key, V)>, j: nat)
    requires j < |second|
    requires UniqueKeys(r) && r == first + Numbered(n, second)
    ensures Lookup(r, IntKey(n + j)) == Some(second[j].1)
  {
    NumberedAt(n, second, j);
    assert r[|first| + j] == (IntKey(n + j), second[j].1);
    LookupAt(r, |first| + j);
  }

  /** `array_join_str`: appends `s` to the string stored under `k`; every
      other key keeps its value. A missing key is treated as holding the
      empty string, so it ends up holding `s`. */
  function ArrayJoinStr(a: AssocArray<string>, k: Key, s: string): (r: AssocArray<string>)
    ensures forall prev :: Lookup(a, k) == Some(prev) ==> Lookup(r, k) == Some(prev + s)
    ensures k !in Keys(a) ==> Lookup(r, k) == Some(s)
    ensures forall k' :: k' != k ==> Lookup(r, k') == Lookup(a, k')
    ensures k in Keys(a) ==> |r| == |a|
  {
    PutShape(a, k, Lookup(a, k).GetOr("") + s);
    match Lookup(a, k)
    case Some(prev) => Put(a, k, prev + s)
    case None => Put(a, k, s)
  }

  // ---------------------------------------------------------------------
  // The assertions of the helper tests, one lemma per test method
  // ---------------------------------------------------------------------

  lemma CaseConversionExamples()
    ensures CamelUpper("a_a") == "aA"
    ensures CamelLower("A") == "a"
    ensures Pascal("abc") == "Abc"
  {
  }

  lemma ArrayKeyValueExamples()
    ensures ArrayKeyValue([(StrKey("a"), Int(123))], StrKey("a")) == Some(Int(123))
    ensures ArrayKeyValue([(StrKey("a"), Str("abc")), (IntKey(1), Str("abcd"))], StrKey("a")) == Some(Str("abc"))
    ensures ArrayKeyValue([(StrKey("a"), Str("abc")), (IntKey(1), Str("abcd"))], IntKey(1)) == Some(Str("abcd"))
  {
  }

  lemma ArrayKeyFilterExample()
    ensures ArrayKeyFilter([(StrKey("a"), "abc")], (v: string) => "cb" + v) == [(StrKey("a"), "cbabc")]
  {
    var filtered := ArrayKeyFilter([(StrKey("a"), "abc")], (v: string) => "cb" + v);
    assert filtered[0] == (StrKey("a"), "cb" + "abc");
    assert "cb" + "abc" == "cbabc";
  }

  lemma ArrayAppendExample()
    ensures ArrayAppend([(StrKey("a"), "1")], [(IntKey(0), "2")]) == [(StrKey("a"), "1"), (IntKey(0), "2")]
  {
  }

  lemma ArrayJoinStrExample()
    ensures Lookup(ArrayJoinStr([(StrKey("a"), "1")], StrKey("a"), "2"), StrKey("a")) == Some("12")
  {
    assert Lookup([(StrKey("a"), "1")], StrKey("a")) == Some("1");
    assert "1" + "2" == "12";
  }
}
