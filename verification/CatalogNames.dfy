/** The strings under which a catalog keeps its namespaces and tables. */
module CatalogNames {
  import opened Texts

  // ---------- Namespaces ----------

  /** The map key of a namespace with these levels. */
  function NamespaceKey(levels: seq<string>): string {
    Join(levels, '.')
  }

  function Levels(key: string): seq<string> {
    Split(key, '.')
  }

  /** Splitting and joining again is the identity on every key; the other way round it is so exactly
      for level lists that are not empty and have no dot inside a level. */
  lemma {:induction false} KeyRoundTrips(key: string, levels: seq<string>)
    ensures NamespaceKey(Levels(key)) == key
    ensures Levels(NamespaceKey(levels)) == levels <==>
              levels != [] && forall k :: 0 <= k < |levels| ==> '.' !in levels[k]
  {
    JoinSplit(key, '.');
    if levels != [] && forall k :: 0 <= k < |levels| ==> '.' !in levels[k] { SplitJoin(levels, '.'); }
  }

  // ---------- Namespaces in request paths ----------

  const UNIT_SEPARATOR: char := '\U{001F}'

  /** Every occurrence of `pat`, from left to right, replaced by `c`. */
  function ReplaceAll(s: string, pat: string, c: char): string
    requires pat != ""
  {
    if s == "" then ""
    else if StartsWith(s, pat) then [c] + ReplaceAll(s[|pat|..], pat, c)
    else [s[0]] + ReplaceAll(s[1..], pat, c)
  }

  function DecodePath(raw: string): string {
    var decoded := ReplaceAll(ReplaceAll(raw, "%1F", UNIT_SEPARATOR), "%1f", UNIT_SEPARATOR);
    ReplaceAll(decoded, [UNIT_SEPARATOR], '.')
  }

  /** Replacement works on both sides of `mid` separately if no occurrence can begin before `mid`
      and end inside it. */
  lemma {:induction false} ReplaceAround(a: string, mid: string, mid': string, b: string, pat: string, c: char)
    requires pat != "" && mid != "" && forall j :: 1 <= j < |pat| ==> pat[j] != mid[0]
    requires ReplaceAll(mid + b, pat, c) == mid' + ReplaceAll(b, pat, c)
    ensures ReplaceAll(a + mid + b, pat, c) == ReplaceAll(a, pat, c) + mid' + ReplaceAll(b, pat, c)
    decreases a
  {
    var whole := a + mid + b;
    if a == "" {
      assert whole == mid + b && "" + mid' == mid';
    } else if StartsWith(a, pat) {
      assert whole[..|pat|] == a[..|pat|] && whole[|pat|..] == a[|pat|..] + mid + b;
      ReplaceAround(a[|pat|..], mid, mid', b, pat, c);
    } else {
      assert !StartsWith(whole, pat) by {
        assert if |pat| <= |a| then whole[..|pat|] == a[..|pat|] else whole[|a|] == mid[0];
      }
      assert whole[1..] == a[1..] + mid + b && whole[0] == a[0];
      ReplaceAround(a[1..], mid, mid', b, pat, c);
    }
  }

  lemma {:induction false} ReplaceFirst(pat: string, b: string, c: char)
    requires pat != ""
    ensures ReplaceAll(pat + b, pat, c) == [c] + ReplaceAll(b, pat, c)
  {
    assert (pat + b)[..|pat|] == pat && (pat + b)[|pat|..] == b;
  }

  lemma {:induction false} KeepFirst(x: char, b: string, pat: string, c: char)
    requires pat != "" && pat[0] != x
    ensures ReplaceAll([x] + b, pat, c) == [x] + ReplaceAll(b, pat, c)
  {
    assert ([x] + b)[1..] == b;
  }

  predicate Separator(sep: string) {
    sep == "%1F" || sep == "%1f" || sep == [UNIT_SEPARATOR] || sep == "."
  }

  /** What the first replacement makes of a separator. */
  lemma {:induction false} FirstPass(a: string, sep: string, b: string)
    requires Separator(sep)
    ensures ReplaceAll(a + sep + b, "%1F", UNIT_SEPARATOR)
         == ReplaceAll(a, "%1F", UNIT_SEPARATOR) + (if sep == "%1F" then [UNIT_SEPARATOR] else sep) +
           ReplaceAll(b, "%1F", UNIT_SEPARATOR)
  {
    var u := UNIT_SEPARATOR;
    if sep == "%1F" {
      ReplaceFirst(sep, b, u);
      ReplaceAround(a, sep, [u], b, "%1F", u);
    } else if sep == "%1f" {
      var whole := sep + b;
      assert whole == ['%'] + (['1'] + (['f'] + b));
      assert whole[2] == 'f';
      assert !StartsWith(whole, "%1F");
      assert whole[1..] == ['1'] + (['f'] + b);
      KeepFirst('1', ['f'] + b, "%1F", u);
      KeepFirst('f', b, "%1F", u);
      ReplaceAround(a, sep, sep, b, "%1F", u);
    } else {
      assert sep == [sep[0]];
      KeepFirst(sep[0], b, "%1F", u);
      ReplaceAround(a, sep, sep, b, "%1F", u);
    }
  }

  lemma {:induction false} SecondPass(a: string, sep: string, b: string)
    requires sep == "%1f" || sep == [UNIT_SEPARATOR] || sep == "."
    ensures ReplaceAll(a + sep + b, "%1f", UNIT_SEPARATOR)
         == ReplaceAll(a, "%1f", UNIT_SEPARATOR) + (if sep == "." then sep else [UNIT_SEPARATOR]) +
           ReplaceAll(b, "%1f", UNIT_SEPARATOR)
  {
    var u := UNIT_SEPARATOR;
    if sep == "%1f" {
      ReplaceFirst(sep, b, u);
      ReplaceAround(a, sep, [u], b, "%1f", u);
    } else {
      assert sep == [sep[0]];
      KeepFirst(sep[0], b, "%1f", u);
      ReplaceAround(a, sep, sep, b, "%1f", u);
    }
  }

  lemma {:induction false} ThirdPass(a: string, sep: string, b: string)
    requires sep == [UNIT_SEPARATOR] || sep == "."
    ensures ReplaceAll(a + sep + b, [UNIT_SEPARATOR], '.')
         == ReplaceAll(a, [UNIT_SEPARATOR], '.') + "." + ReplaceAll(b, [UNIT_SEPARATOR], '.')
  {
    if sep == "." {
      KeepFirst('.', b, [UNIT_SEPARATOR], '.');
    } else {
      ReplaceFirst(sep, b, '.');
    }
    ReplaceAround(a, sep, ".", b, [UNIT_SEPARATOR], '.');
  }

  /** All four ways of writing the separator mean a dot. */
  lemma {:induction false} DecodeAround(a: string, sep: string, b: string)
    requires Separator(sep)
    ensures DecodePath(a + sep + b) == DecodePath(a) + "." + DecodePath(b)
  {
    var u := UNIT_SEPARATOR;
    var a1, b1 := ReplaceAll(a, "%1F", u), ReplaceAll(b, "%1F", u);
    var sep1 := if sep == "%1F" then [u] else sep;
    FirstPass(a, sep, b);
    SecondPass(a1, sep1, b1);
    ThirdPass(ReplaceAll(a1, "%1f", u), if sep1 == "." then sep1 else [u], ReplaceAll(b1, "%1f", u));
  }

  function PathOf(levels: seq<string>, sep: string): string {
    if levels == [] then ""
    else if |levels| == 1 then levels[0]
    else levels[0] + sep + PathOf(levels[1..], sep)
  }

  /** A path names the same namespace however its levels are separated, provided that no level
      holds a separator of a path. */
  lemma {:induction false} PathNamesNamespace(levels: seq<string>, sep: string)
    requires Separator(sep) && forall k :: 0 <= k < |levels| ==> DecodePath(levels[k]) == levels[k]
    ensures DecodePath(PathOf(levels, sep)) == NamespaceKey(levels)
    decreases levels
  {
    if |levels| > 1 {
      DecodeAround(levels[0], sep, PathOf(levels[1..], sep));
      PathNamesNamespace(levels[1..], sep);
    }
  }

  // ---------- Tables ----------

  function Prefix(ns: string): string {
    ns + "::"
  }

  function TableKey(ns: string, name: string): string {
    Prefix(ns) + name
  }

  /** A key split at its first `::`. */
  function SplitKey(key: string): (string, string) {
    match Find(key, "::")
    case None => (key, "unknown")
    case Some(i) => (key[..i], key[i + 2..])
  }

  /** No `::` begins inside the namespace: it has none, and does not end in a colon. */
  predicate Clear(ns: string) {
    Find(ns + ":", "::").None?
  }

  lemma {:induction false} ColonsInside(ns: string, name: string, i: nat)
    requires i < |ns|
    ensures OccursAt(TableKey(ns, name), "::", i) <==> OccursAt(ns + ":", "::", i)
  {
    var key, short := TableKey(ns, name), ns + ":";
    assert key[i..][..2] == [key[i], key[i + 1]] && short[i..][..2] == [short[i], short[i + 1]];
  }

  lemma {:induction false} ColonsAfter(ns: string, name: string)
    ensures OccursAt(TableKey(ns, name), "::", |ns|)
    ensures TableKey(ns, name)[..|ns|] == ns && TableKey(ns, name)[|ns| + 2..] == name
  {
    assert TableKey(ns, name)[|ns|..][..2] == "::";
  }

  /** A table's key can be taken apart again exactly when its namespace is clear, whatever the
      table is called. */
  lemma {:induction false} KeySplitsIff(ns: string, name: string)
    ensures SplitKey(TableKey(ns, name)) == (ns, name) <==> Clear(ns)
  {
    var key := TableKey(ns, name);
    ColonsAfter(ns, name);
    var at := Find(key, "::");
    assert at.Some? && at.value <= |ns|;
    if at.value < |ns| {
      ColonsInside(ns, name, at.value);
      assert key[..at.value] != ns;
    } else {
      var inside := Find(ns + ":", "::");
      if inside.Some? {
        assert inside.value < |ns|;
        ColonsInside(ns, name, inside.value);
      }
    }
  }

  /** The tables of two clear namespaces never share a key prefix. */
  lemma {:induction false} PrefixesApart(ns: string, name: string, other: string)
    requires Clear(ns) && Clear(other)
    ensures StartsWith(TableKey(ns, name), Prefix(other)) <==> ns == other
  {
    var key := TableKey(ns, name);
    if StartsWith(key, Prefix(other)) {
      assert key == TableKey(other, key[|Prefix(other)|..]);
      KeySplitsIff(ns, name);
      KeySplitsIff(other, key[|Prefix(other)|..]);
    }
    if ns == other { assert key[..|Prefix(ns)|] == Prefix(ns); }
  }

  /** A namespace that is not clear puts its tables under another namespace's prefix as well. */
  lemma {:induction false} UnclearLeaks(ns: string, name: string) returns (other: string)
    requires !Clear(ns)
    ensures other != ns && Clear(other) && StartsWith(TableKey(ns, name), Prefix(other))
  {
    var key := TableKey(ns, name);
    other := SplitKey(key).0;
    ColonsAfter(ns, name);
    var i := Find(key, "::").value;
    KeySplitsIff(ns, name);
    assert i != |ns|;
    assert key[i..][..2] == "::";
    assert key[..i + 2] == Prefix(other);
    var rest := key[i + 2..];
    assert key == TableKey(other, rest) && SplitKey(key) == (other, rest);
    KeySplitsIff(other, rest);
  }
}
