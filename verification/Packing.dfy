/** Tag tokens, the sorted list of a tag set, and packing a tag list into one
    delimited string. */
module Packing {
  import opened EventStore

  // ----- tag tokens (eventstore/tags.go) -----

  /** unicode.IsSpace */
  predicate IsSpace(c: char) {
    || '\t' <= c <= '\r' || c == ' ' || c == '\U{85}' || c == '\U{A0}' || c == '\U{1680}'
    || '\U{2000}' <= c <= '\U{200A}' || c == '\U{2028}' || c == '\U{2029}' || c == '\U{202F}'
    || c == '\U{205F}' || c == '\U{3000}'
  }

  predicate ValidTagToken(s: string) {
    s != "" && forall c <- s :: !IsSpace(c)
  }

  /** What every tag set built by `TagsFrom` and `TagsFromMap` meets. */
  predicate TokenTags(tags: set<string>) {
    forall tag <- tags :: ValidTagToken(tag)
  }

  method TagsFrom(values: seq<string>) returns (tags: Option<set<string>>)
    ensures tags.Some? <==> forall v <- values :: ValidTagToken(v)
    ensures tags.Some? ==> forall v :: v in tags.value <==> v in values
  {
    for i := 0 to |values|
      invariant forall j :: 0 <= j < i ==> ValidTagToken(values[j])
    {
      if !ValidTagToken(values[i]) {
        return None;
      }
    }
    var collected: set<string> := {};
    for i := 0 to |values|
      invariant forall v :: v in collected <==> v in values[..i]
    {
      collected := collected + {values[i]};
    }
    assert values[..|values|] == values;
    return Some(collected);
  }

  /** Every entry of the map becomes the tag `key=value`, if all keys and values are valid tokens. */
  method TagsFromMap(obj: map<string, string>) returns (tags: Option<set<string>>)
    ensures tags.Some? <==> obj != map[] && forall k <- obj :: ValidTagToken(k) && ValidTagToken(obj[k])
    ensures tags.Some? ==> tags.value == set k | k in obj :: k + "=" + obj[k]
    ensures tags.Some? ==> forall t <- tags.value :: ValidTagToken(t)
  {
    if |obj| == 0 {
      return None;
    }
    var collected: set<string> := {};
    var remaining := obj.Keys;
    while remaining != {}
      invariant remaining <= obj.Keys
      invariant forall k <- obj.Keys - remaining :: ValidTagToken(k) && ValidTagToken(obj[k])
      invariant collected == set k | k in obj.Keys - remaining :: k + "=" + obj[k]
      decreases remaining
    {
      var k :| k in remaining;
      if !ValidTagToken(k) || !ValidTagToken(obj[k]) {
        return None;
      }
      collected := collected + {k + "=" + obj[k]};
      remaining := remaining - {k};
    }
    return Some(collected);
  }

  // ----- the sorted list of a tag set -----

  predicate StringLeq(a: string, b: string) {
    || a == ""
    || (b != "" && (a[0] < b[0] || (a[0] == b[0] && StringLeq(a[1..], b[1..]))))
  }

  lemma StringLeqTotal(a: string, b: string)
    ensures StringLeq(a, b) || StringLeq(b, a)
    ensures StringLeq(a, b) && StringLeq(b, a) ==> a == b
  {
    if a != "" && b != "" && a[0] == b[0] {
      StringLeqTotal(a[1..], b[1..]);
      assert a == [a[0]] + a[1..] && b == [b[0]] + b[1..];
    }
  }

  lemma StringLeqTransitive(a: string, b: string, c: string)
    requires StringLeq(a, b) && StringLeq(b, c)
    ensures StringLeq(a, c)
  {
    if a != "" && b != "" && c != "" && a[0] == b[0] == c[0] {
      StringLeqTransitive(a[1..], b[1..], c[1..]);
    }
  }

  /** String order: the first character that differs decides, and a string comes before its extensions. */
  lemma {:induction false} StringOrder(a: string, b: string, k: nat)
    requires k <= |a| && k <= |b| && a[..k] == b[..k]
    ensures k < |a| && k < |b| && a[k] < b[k] ==> StringLeq(a, b) && !StringLeq(b, a)
    ensures k == |a| && k < |b| ==> StringLeq(a, b) && !StringLeq(b, a)
  {
    if k > 0 {
      assert a[0] == a[..k][0] && b[0] == b[..k][0];
      assert a[1..][..k - 1] == a[..k][1..] && b[1..][..k - 1] == b[..k][1..];
      StringOrder(a[1..], b[1..], k - 1);
    }
  }

  predicate IsLeast(least: string, values: set<string>) {
    least in values && forall v <- values :: StringLeq(least, v)
  }

  lemma LeastExists(values: set<string>) returns (least: string)
    requires values != {}
    ensures IsLeast(least, values)
  {
    var v :| v in values;
    if values == {v} {
      StringLeqTotal(v, v);
      least := v;
    } else {
      var rest := LeastExists(values - {v});
      StringLeqTotal(v, rest);
      StringLeqTotal(v, v);
      least := if StringLeq(v, rest) then v else rest;
      forall w | w in values ensures StringLeq(least, w) {
        if w != v && least == v {
          StringLeqTransitive(v, rest, w);
        }
      }
    }
  }

  function Least(values: set<string>): (least: string)
    requires values != {}
    ensures IsLeast(least, values)
  {
    ghost var some := LeastOf(values);
    assert IsLeast(some, values);
    assert forall x, y | x in values && IsLeast(x, values) && y in values && IsLeast(y, values) :: x == y by {
      forall x, y | IsLeast(x, values) && IsLeast(y, values) ensures x == y {
        StringLeqTotal(x, y);
      }
    }
    var least :| least in values && IsLeast(least, values);
    least
  }

  ghost function LeastOf(values: set<string>): (least: string)
    requires values != {}
    ensures IsLeast(least, values)
  {
    assert exists least :: IsLeast(least, values) by {
      var least := LeastExists(values);
    }
    var least :| IsLeast(least, values);
    least
  }

  ghost predicate Sorted(values: seq<string>) {
    forall i, j :: 0 <= i < j < |values| ==> StringLeq(values[i], values[j])
  }

  ghost predicate Distinct(values: seq<string>) {
    forall i, j :: 0 <= i < j < |values| ==> values[i] != values[j]
  }

  /** Tags.Values: every tag once, in string order. */
  function Values(tags: set<string>): (values: seq<string>)
    ensures forall v :: v in values <==> v in tags
  {
    if tags == {} then []
    else
      var least := Least(tags);
      [least] + Values(tags - {least})
  }

  lemma SortedWithFirst(first: string, rest: seq<string>)
    requires Sorted(rest) && Distinct(rest)
    requires forall v <- rest :: StringLeq(first, v) && v != first
    ensures Sorted([first] + rest) && Distinct([first] + rest)
  {
    hide StringLeq;
  }

  lemma {:induction false} ValuesSorted(tags: set<string>)
    ensures Sorted(Values(tags)) && Distinct(Values(tags)) && |Values(tags)| == |tags|
  {
    hide Least, StringLeq, Sorted, Distinct;
    if tags == {} {
      NothingSorted();
    } else {
      var least := Least(tags);
      ValuesSorted(tags - {least});
      SortedWithFirst(least, Values(tags - {least}));
    }
  }

  lemma NothingSorted()
    ensures Sorted([]) && Distinct([])
  {}

  // ----- packing -----

  const TAG_DELIMITER: char := '\U{1F}'

  predicate DelimiterFree(s: string) {
    TAG_DELIMITER !in s
  }

  predicate CleanTags(tags: set<string>) {
    forall tag <- tags :: DelimiterFree(tag)
  }

  /** strings.Join(values, tagDelimiter) */
  function Join(values: seq<string>): string {
    if values == [] then ""
    else if |values| == 1 then values[0]
    else values[0] + [TAG_DELIMITER] + Join(values[1..])
  }

  function Parts(s: string): (parts: seq<string>)
    ensures parts != [] && forall part <- parts :: DelimiterFree(part)
  {
    if s == "" then [""]
    else
      var rest := Parts(s[1..]);
      if s[0] == TAG_DELIMITER then [""] + rest
      else
        assert rest[0] in rest;
        [[s[0]] + rest[0]] + rest[1..]
  }

  /** Postgres string_to_array: the empty string has no parts. */
  function StringToArray(s: string): seq<string> {
    if s == "" then [] else Parts(s)
  }

  function Pack(tags: set<string>): string {
    Join(Values(tags))
  }

  function Unpack(packed: string): set<string> {
    set part <- StringToArray(packed)
  }

  /** The delimiter-separated parts of all the tags. */
  function SplitTags(tags: set<string>): set<string> {
    set tag <- tags, part <- Parts(tag) :: part
  }

  lemma PartsOfCons(c: char, s: string)
    ensures var rest := Parts(s);
            Parts([c] + s) == if c == TAG_DELIMITER then [""] + rest else [[c] + rest[0]] + rest[1..]
  {
    assert ([c] + s)[1..] == s;
  }

  lemma {:induction false} PartsConcat(a: string, b: string)
    ensures Parts(a + [TAG_DELIMITER] + b) == Parts(a) + Parts(b)
  {
    hide Parts;
    if a == "" {
      PartsOfEmpty();
      PartsOfCons(TAG_DELIMITER, b);
      assert a + [TAG_DELIMITER] + b == [TAG_DELIMITER] + b;
    } else {
      PartsConcat(a[1..], b);
      PartsOfCons(a[0], a[1..]);
      PartsOfCons(a[0], a[1..] + [TAG_DELIMITER] + b);
      assert a == [a[0]] + a[1..];
      assert a + [TAG_DELIMITER] + b == [a[0]] + (a[1..] + [TAG_DELIMITER] + b);
    }
  }

  lemma PartsOfEmpty()
    ensures Parts("") == [""]
  {}

  lemma {:induction false} PartsOfFree(s: string)
    requires DelimiterFree(s)
    ensures Parts(s) == [s]
  {
    if s != "" {
      PartsOfFree(s[1..]);
      assert s == [s[0]] + s[1..];
    }
  }

  lemma {:induction false} PartsWithin(s: string, part: string, c: char)
    requires part in Parts(s) && c in part
    ensures c in s
  {
    if s != "" {
      var rest := Parts(s[1..]);
      assert rest[0] in rest && s == [s[0]] + s[1..];
      if part in rest {
        PartsWithin(s[1..], part, c);
      } else if c != s[0] {
        PartsWithin(s[1..], rest[0], c);
      }
    }
  }

  /** The parts of valid tokens are valid tokens, or empty. */
  lemma PartsOfTokens(tags: set<string>, part: string)
    requires TokenTags(tags) && part in SplitTags(tags) && part != ""
    ensures ValidTagToken(part)
  {
    var tag :| tag in tags && part in Parts(tag);
    forall c | c in part ensures !IsSpace(c) {
      PartsWithin(tag, part, c);
    }
  }

  lemma {:induction false} PartsOfJoin(values: seq<string>, part: string)
    requires values != []
    ensures part in Parts(Join(values)) <==> exists v <- values :: part in Parts(v)
  {
    if |values| > 1 {
      PartsOfJoin(values[1..], part);
      PartsConcat(values[0], Join(values[1..]));
      assert values == [values[0]] + values[1..];
    } else {
      assert values[0] in values;
    }
  }

  lemma {:induction false} SplitJoin(values: seq<string>)
    requires values != [] && forall v <- values :: DelimiterFree(v)
    ensures Parts(Join(values)) == values
  {
    PartsOfFree(values[0]);
    if |values| == 1 {
      assert values == [values[0]];
    } else {
      SplitJoin(values[1..]);
      PartsConcat(values[0], Join(values[1..]));
      assert values == [values[0]] + values[1..];
    }
  }

  /** Packing then unpacking splits every tag at its delimiters. */
  lemma UnpackIsSplit(tags: set<string>)
    requires "" !in tags
    ensures Unpack(Pack(tags)) == SplitTags(tags)
  {
    var values := Values(tags);
    if tags == {} {
      assert values == [];
    } else {
      assert values[0] in tags;
      forall part ensures part in Parts(Join(values)) <==> exists tag <- tags :: part in Parts(tag) {
        PartsOfJoin(values, part);
      }
    }
  }

  /** Joining then splitting gives back the very list of tags, and only no tags pack to "". */
  lemma PackedList(tags: set<string>)
    requires "" !in tags && CleanTags(tags)
    ensures StringToArray(Pack(tags)) == Values(tags)
    ensures Pack(tags) == "" <==> tags == {}
  {
    var values := Values(tags);
    if tags != {} {
      SplitJoin(values);
      assert values[0] in tags;
      assert Parts("") == [""];
    }
  }

  /** The tags survive packing exactly when none contains the delimiter. */
  lemma PackRoundTrip(tags: set<string>)
    requires "" !in tags
    ensures Unpack(Pack(tags)) == tags <==> CleanTags(tags)
  {
    if CleanTags(tags) {
      PackedList(tags);
    }
  }

  /** Distinct delimiter-free tag sets pack to distinct strings. */
  lemma PackInjective(a: set<string>, b: set<string>)
    requires "" !in a && "" !in b && CleanTags(a) && CleanTags(b)
    ensures Pack(a) == Pack(b) ==> a == b
  {
    PackRoundTrip(a);
    PackRoundTrip(b);
  }

  /** A valid token may contain the delimiter, and then packing changes the tags. */
  lemma DelimiterIsValidButLost()
    ensures ValidTagToken("a\U{1F}b")
    ensures Unpack(Pack({"a\U{1F}b"})) != {"a\U{1F}b"}
  {
    var tag := "a\U{1F}b";
    assert tag[1] == TAG_DELIMITER;
    assert tag in {tag} && !DelimiterFree(tag);
    PackRoundTrip({tag});
  }
}
