/** The `Skihat` kernel class: the process-wide configuration registry and
    the naming rule that turns a dotted class path into a class name.

    The registry is a value here: `Write` returns the updated registry
    instead of changing global state. */
module Skihat {
  import opened Ascii
  import opened Arrays
  import opened Core

  // ---------------------------------------------------------------------
  // Registry
  // ---------------------------------------------------------------------

  /** The named configuration slots, keyed by their name. */
  datatype Registry<V> = Registry(slots: AssocArray<V>)

  /** The registry at process start: no slot written. */
  function EmptyRegistry<V>(): (r: Registry<V>)
    ensures forall name :: Read(r, name) == None
  {
    Registry([])
  }

  /** `Skihat::read`: the value last written under `name`, or `None` when
      nothing was written there. */
  function Read<V>(reg: Registry<V>, name: string): (r: Option<V>)
    ensures r.Some? <==> StrKey(name) in Keys(reg.slots)
    ensures r.Some? ==> (StrKey(name), r.value) in reg.slots
  {
    LookupFound(reg.slots, StrKey(name));
    Lookup(reg.slots, StrKey(name))
  }

  /** `Skihat::write`: stores `v` under `name`, replacing what was there;
      every other slot reads as before. */
  function Write<V>(reg: Registry<V>, name: string, v: V): (r: Registry<V>)
    ensures Read(r, name) == Some(v)
    ensures forall other :: other != name ==> Read(r, other) == Read(reg, other)
  {
    Registry(Put(reg.slots, StrKey(name), v))
  }

  /** A second write to the same slot makes the first one invisible. */
  lemma {:induction false} WriteOverwrites<V>(reg: Registry<V>, name: string, v1: V, v2: V)
    ensures Write(Write(reg, name, v1), name, v2) == Write(reg, name, v2)
  {
    PutPut(reg.slots, StrKey(name), v1, v2);
  }

  /** Writes to different slots commute as far as any read can tell. */
  lemma WritesCommute<V>(reg: Registry<V>, n1: string, v1: V, n2: string, v2: V)
    requires n1 != n2
    ensures forall name :: Read(Write(Write(reg, n1, v1), n2, v2), name) ==
                           Read(Write(Write(reg, n2, v2), n1, v1), name)
  {
  }

  /** `testWrite`: reading right after writing gives the written value. */
  lemma WriteReadExample()
    ensures Read(Write(EmptyRegistry(), "test", "test1"), "test") == Some("test1")
  {
  }

  // ---------------------------------------------------------------------
  // Class names from dotted paths
  // ---------------------------------------------------------------------

  /** The part of a dotted path after its last '.', or the whole path when
      it has none. */
  function LastSegment(path: string): (seg: string)
    ensures '.' !in seg
    ensures |seg| <= |path| && seg == path[|path| - |seg|..]
    ensures |seg| == |path| || path[|path| - |seg| - 1] == '.'
  {
    if |path| == 0 then ""
    else if path[|path| - 1] == '.' then ""
    else
      var init := path[..|path| - 1];
      var seg := LastSegment(init) + [path[|path| - 1]];
      assert path == init + [path[|path| - 1]];
      seg
  }

  /** Whatever comes before the last '.' does not affect the last segment. */
  lemma LastSegmentOfJoin(prefix: string, seg: string)
    requires '.' !in seg
    ensures LastSegment(prefix + "." + seg) == seg
  {
    var path := prefix + "." + seg;
    var s := LastSegment(path);
    assert path[|path| - |seg| - 1] == '.';
    assert path[|path| - |seg|..] == seg;
  }

  /** A path without dots is its own last segment. */
  lemma LastSegmentOfPlain(seg: string)
    requires '.' !in seg
    ensures LastSegment(seg) == seg
  {
  }

  /** `CamelUpper` brings in no character other than upper-case letters. */
  lemma {:induction false} CamelUpperAddsNoOther(s: string, c: char)
    requires c != '_' && !IsUpper(c) && c !in s
    ensures c !in CamelUpper(s)
  {
    if |s| > 0 {
      if s[0] != '_' {
        assert c !in s[1..];
        CamelUpperAddsNoOther(s[1..], c);
      } else if |s| >= 2 {
        assert c !in s[2..];
        CamelUpperAddsNoOther(s[2..], c);
        assert c !in s[1..];
        CamelUpperAddsNoOther(s[1..], c);
      }
    }
  }

  /** `Pascal` brings in no character other than upper-case letters. */
  lemma PascalAddsNoOther(s: string, c: char)
    requires !IsUpper(c) && c !in s
    ensures c !in Pascal(s)
  {
  }

  /** `Skihat::using`: the class name a dotted path stands for, derived from
      its last segment by the snake_case to PascalCase rule. */
  function Using(path: string): (name: string)
    ensures '.' !in name && '_' !in name
  {
    var seg := LastSegment(path);
    CamelUpperAddsNoOther(seg, '.');
    var camel := CamelUpper(seg);
    PascalAddsNoOther(camel, '.');
    PascalAddsNoOther(camel, '_');
    Pascal(camel)
  }

  /** The class name depends on the last segment only. */
  lemma UsingLastSegmentOnly(prefix: string, seg: string)
    requires '.' !in seg
    ensures Using(prefix + "." + seg) == Using(seg)
  {
    LastSegmentOfJoin(prefix, seg);
    LastSegmentOfPlain(seg);
  }

  /** For a last segment that is a snake_case identifier starting with a
      letter, the class name loses nothing: lower-casing its first letter
      and converting back to snake_case gives the segment again. */
  lemma UsingRoundTrip(path: string)
    requires |LastSegment(path)| > 0 && IsLower(LastSegment(path)[0])
    requires SnakeIdent(LastSegment(path))
    ensures SnakeCase(CamelLower(Using(path))) == LastSegment(path)
  {
    var seg := LastSegment(path);
    var camel := CamelUpper(seg);
    CamelLowerUndoesPascal(camel);
    SnakeCaseUndoesCamelUpper(seg);
  }

  /** Words joined by underscores: the shape of a snake_case segment. */
  function SnakeJoin(words: seq<string>): (r: string)
    ensures (forall i :: 0 <= i < |words| ==> '.' !in words[i]) ==> '.' !in r
    ensures |words| > 0 && |words[|words| - 1]| > 0 ==>
              |r| > 0 && r[|r| - 1] == words[|words| - 1][|words[|words| - 1]| - 1]
    ensures |words| > 0 && |words[0]| > 0 ==> |r| > 0 && r[0] == words[0][0]
  {
    if |words| == 0 then ""
    else if |words| == 1 then words[0]
    else SnakeJoin(words[..|words| - 1]) + ("_" + words[|words| - 1])
  }

  /** The same words, each with its first letter upper-cased, run together. */
  function PascalJoin(words: seq<string>): string
  {
    if |words| == 0 then ""
    else PascalJoin(words[..|words| - 1]) + Pascal(words[|words| - 1])
  }

  /** Words fit to be joined into a segment: none empty, none holding a
      separator. */
  predicate PlainWords(words: seq<string>)
  {
    forall i :: 0 <= i < |words| ==> |words[i]| > 0 && '_' !in words[i] && '.' !in words[i]
  }

  /** One more word: its capitalised form is appended to the class name. */
  lemma PascalCamelNextWord(x: string, w: string)
    requires |x| > 0 && x[0] != '_' && x[|x| - 1] != '_'
    requires |w| > 0 && '_' !in w
    ensures Pascal(CamelUpper(x + ("_" + w))) == Pascal(CamelUpper(x)) + Pascal(w)
  {
    CamelUpperNextWord(x, w);
    PascalAppend(CamelUpper(x), Pascal(w));
  }

  /** `Pascal` touches the first character only, so text after a non-empty
      prefix passes through. */
  lemma PascalAppend(x: string, y: string)
    requires |x| > 0
    ensures Pascal(x + y) == Pascal(x) + y
  {
    assert (x + y)[1..] == x[1..] + y;
  }

  /** The naming rule word by word: each word of the snake_case segment is
      capitalised and the words are run together. */
  lemma {:induction false} PascalOfSnakeJoin(words: seq<string>)
    requires |words| > 0 && PlainWords(words)
    ensures Pascal(CamelUpper(SnakeJoin(words))) == PascalJoin(words)
  {
    var n := |words|;
    if n == 1 {
      assert PascalJoin(words) == PascalJoin([]) + Pascal(words[0]);
    } else {
      var init := words[..n - 1];
      assert PlainWords(init) by {
        forall i | 0 <= i < |init| ensures init[i] == words[i] { }
      }
      PascalOfSnakeJoin(init);
      var x := SnakeJoin(init);
      assert init[0] == words[0] && init[n - 2] == words[n - 2];
      assert x[0] != '_' && x[|x| - 1] != '_';
      PascalCamelNextWord(x, words[n - 1]);
    }
  }

  /** `Skihat::using` on a path whose last segment is the words joined by
      underscores: the words capitalised and run together. */
  lemma UsingOfWords(prefix: string, words: seq<string>)
    requires |words| > 0 && PlainWords(words)
    ensures Using(prefix + "." + SnakeJoin(words)) == PascalJoin(words)
  {
    LastSegmentOfJoin(prefix, SnakeJoin(words));
    PascalOfSnakeJoin(words);
  }

  /** The words of the cache engine's segment, joined by underscores.
      The parameter only names the literal for the solver: `requires` fixes
      its value, so the lemma is about that one literal. */
  lemma SnakeJoinExample(words: seq<string>)
    requires words == ["file", "cache", "engine"]
    ensures SnakeJoin(words) == "file_cache_engine"
  {
    var w2 := words[..2];
    assert w2[..1] == ["file"];
    assert SnakeJoin(w2) == "file" + ("_" + "cache");
    assert SnakeJoin(words) == SnakeJoin(w2) + ("_" + "engine");
  }

  /** Three words, capitalised and run together. */
  lemma PascalJoinThree(words: seq<string>)
    requires |words| == 3
    ensures PascalJoin(words) == Pascal(words[0]) + Pascal(words[1]) + Pascal(words[2])
  {
    var w2 := words[..2];
    var w1 := w2[..1];
    assert w1[..0] == [] && w1[0] == words[0] && w2[1] == words[1];
    assert PascalJoin(w1) == Pascal(words[0]);
    assert PascalJoin(w2) == PascalJoin(w1) + Pascal(words[1]);
  }

  /** The cache engine's words, capitalised and run together.
      The parameter only names the literal for the solver: `requires` fixes
      its value, so the lemma is about that one literal. */
  lemma PascalJoinExample(words: seq<string>)
    requires words == ["file", "cache", "engine"]
    ensures PascalJoin(words) == "FileCacheEngine"
  {
    PascalJoinThree(words);
    PascalOfCacheWords();
  }

  /** The words of the cache engine's segment, each capitalised, run together. */
  lemma PascalOfCacheWords()
    ensures Pascal("file") + Pascal("cache") + Pascal("engine") == "FileCacheEngine"
  {
    PascalOfWord("file", "File");
    PascalOfWord("cache", "Cache");
    PascalOfWord("engine", "Engine");
    assert "File" + "Cache" + "Engine" == "FileCacheEngine";
  }

  /** `r` is `w` with its first letter capitalised. */
  lemma PascalOfWord(w: string, r: string)
    requires |w| > 0 && r == [ToUpper(w[0])] + w[1..]
    ensures Pascal(w) == r
  {
  }

  /** `testUsing`: the file cache engine's path names `FileCacheEngine`.
      The parameters only name the literals for the solver: `requires` fixes
      their values, so the lemma is about those literals alone. */
  lemma UsingExample(path: string, words: seq<string>)
    requires path == "kernels.caches.engines.file_cache_engine"
    requires words == ["file", "cache", "engine"]
    ensures Using(path) == "FileCacheEngine"
  {
    SnakeJoinExample(words);
    assert path == "kernels.caches.engines" + "." + SnakeJoin(words);
    assert PlainWords(words);
    UsingOfWords("kernels.caches.engines", words);
    PascalJoinExample(words);
  }
}
