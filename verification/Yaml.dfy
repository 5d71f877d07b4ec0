/**
 * Documents as the metadata codec sees them: a small tree, typed access that fails where the
 * library throws, and the text form as an assumed pair of inverse functions.
 */
module Yaml {
  import opened Basics
  import opened Decimal

  datatype Node =
    | Null
    | Scalar(text: string)
    | Sequence(items: seq<Node>)
    | Mapping(entries: map<string, Node>)
  {
    /** node[key] for reading; None is an undefined node. */
    function Get(key: string): Option<Node> {
      if Mapping? && key in entries then Some(entries[key]) else None
    }

    /** node[key] = value; a null node becomes a mapping. */
    function Set(key: string, value: Node): Node {
      Mapping((if Mapping? then entries else map[])[key := value])
    }
  }

  /** Dump and Load; loading a dumped document gives the document, and no dump is empty. */
  datatype TextForm = TextForm(dump: Node -> string, load: string -> Node)

  ghost predicate Inverse(t: TextForm) {
    forall n :: t.load(t.dump(n)) == n && t.dump(n) != ""
  }

  // ----- Scalars -----

  function Integer(n: int): Node { Scalar(IntToString(n)) }

  function Boolean(b: bool): Node { Scalar(if b then "true" else "false") }

  /** as<std::string>: a null node reads as "null". */
  function AsText(n: Option<Node>): Option<string> {
    if n.None? then None
    else if n.value.Null? then Some("null")
    else if n.value.Scalar? then Some(n.value.text)
    else None
  }

  /** as<T> for an integer type T with the given range. */
  function AsInteger(n: Option<Node>, low: int, high: int): (r: Option<int>)
    ensures r.Some? ==> low <= r.value <= high
  {
    if n.None? || !n.value.Scalar? then None
    else match ParseInt(n.value.text)
      case None => None
      case Some(i) => if low <= i <= high then Some(i) else None
  }

  function AsBoolean(n: Option<Node>): Option<bool> {
    if n.None? || !n.value.Scalar? then None
    else if n.value.text == "true" then Some(true)
    else if n.value.text == "false" then Some(false)
    else None
  }

  type int32 = i: int | -INT32_MAX - 1 <= i <= INT32_MAX
  type int64 = i: int | -INT64_MAX - 1 <= i <= INT64_MAX
  type uint64 = i: int | 0 <= i <= UINT64_MAX

  function AsInt32(n: Option<Node>): Option<int32> { AsInteger(n, -INT32_MAX - 1, INT32_MAX) }

  function AsUint64(n: Option<Node>): Option<uint64> { AsInteger(n, 0, UINT64_MAX) }

  /** Reading a written number gives it back exactly when it fits the type it is read as. */
  lemma IntegerRoundTrip(n: int, low: int, high: int)
    ensures AsInteger(Some(Integer(n)), low, high) == if low <= n <= high then Some(n) else None
  {
    ParseIntRoundTrip(n);
  }

  // ----- Lists -----

  /** Converts every item; one failure fails the whole list. */
  function AllOf<T>(items: seq<Node>, convert: Node -> Option<T>): (r: Option<seq<T>>)
    ensures r.Some? ==> |r.value| == |items|
  {
    if items == [] then Some([])
    else
      var first, rest := convert(items[0]), AllOf(items[1..], convert);
      if first.Some? && rest.Some? then Some([first.value] + rest.value) else None
  }

  /** The conversion of a list, item by item. */
  lemma {:induction false} AllOfItems<T>(items: seq<Node>, convert: Node -> Option<T>)
    ensures AllOf(items, convert).Some? <==> forall i | 0 <= i < |items| :: convert(items[i]).Some?
    ensures AllOf(items, convert).Some? ==>
              forall i | 0 <= i < |items| :: convert(items[i]) == Some(AllOf(items, convert).value[i])
  {
    if items != [] {
      AllOfItems(items[1..], convert);
      var rest := AllOf(items[1..], convert);
      if AllOf(items, convert).Some? {
        forall i | 0 <= i < |items| ensures convert(items[i]) == Some(AllOf(items, convert).value[i]) {
          if i > 0 { assert items[i] == items[1..][i - 1]; }
        }
      } else if convert(items[0]).Some? {
        var j :| 0 <= j < |items[1..]| && convert(items[1..][j]).None?;
        assert items[j + 1] == items[1..][j];
      }
    }
  }

  lemma {:induction false} AllOfSnoc<T>(items: seq<Node>, last: Node, convert: Node -> Option<T>)
    ensures AllOf(items + [last], convert) ==
            if AllOf(items, convert).Some? && convert(last).Some?
            then Some(AllOf(items, convert).value + [convert(last).value]) else None
  {
    if items == [] {
      assert items + [last] == [last] && [last][1..] == [];
      assert AllOf([last][1..], convert) == Some([]);
      if convert(last).Some? { assert [convert(last).value] + [] == [] + [convert(last).value]; }
    } else {
      assert (items + [last])[1..] == items[1..] + [last];
      AllOfSnoc(items[1..], last, convert);
      if AllOf(items, convert).Some? && convert(last).Some? {
        var x, xs := convert(items[0]).value, AllOf(items[1..], convert).value;
        assert [x] + (xs + [convert(last).value]) == ([x] + xs) + [convert(last).value];
      }
    }
  }

  /** One turn of a decoder's loop over a list. */
  lemma AllOfNext<T>(items: seq<Node>, i: nat, convert: Node -> Option<T>, xs: seq<T>, r: Option<T>)
    requires i < |items| && AllOf(items[..i], convert) == Some(xs) && r == convert(items[i])
    ensures if r.Some? then AllOf(items[..i + 1], convert) == Some(xs + [r.value]) else AllOf(items, convert) == None
  {
    AllOfSnoc(items[..i], items[i], convert);
    assert items[..i] + [items[i]] == items[..i + 1];
    if r.None? { AllOfItems(items, convert); }
  }

  lemma AllOfIs<T>(items: seq<Node>, convert: Node -> Option<T>, xs: seq<T>)
    requires |items| == |xs| && forall i | 0 <= i < |xs| :: convert(items[i]) == Some(xs[i])
    ensures AllOf(items, convert) == Some(xs)
  {
    AllOfItems(items, convert);
    var ys := AllOf(items, convert).value;
    forall i | 0 <= i < |xs| ensures ys[i] == xs[i] {
      assert convert(items[i]) == Some(ys[i]);
    }
    assert ys == xs;
  }

  function Texts(xs: seq<string>): Node {
    Sequence(seq(|xs|, i requires 0 <= i < |xs| => Scalar(xs[i])))
  }

  function ItemText(n: Node): Option<string> { AsText(Some(n)) }

  function AsTexts(n: Option<Node>): Option<seq<string>> {
    if n.None? || !n.value.Sequence? then None else AllOf(n.value.items, ItemText)
  }

  lemma TextsRoundTrip(xs: seq<string>)
    ensures AsTexts(Some(Texts(xs))) == Some(xs)
  {
    AllOfIs(Texts(xs).items, ItemText, xs);
  }

  // ----- String tables -----

  /** An empty table is never assigned a key, so it stays a null node. */
  function Table(m: map<string, string>): Node {
    if m == map[] then Null else Mapping(map k | k in m :: Scalar(m[k]))
  }

  /** Converts every entry of a mapping; one failure fails the whole mapping. */
  function AllEntries<T>(entries: map<string, Node>, convert: Node -> Option<T>): Option<map<string, T>> {
    if forall k | k in entries :: convert(entries[k]).Some?
    then Some(map k | k in entries :: convert(entries[k]).value)
    else None
  }

  lemma AllEntriesAre<T>(entries: map<string, Node>, convert: Node -> Option<T>, m: map<string, T>)
    requires entries.Keys == m.Keys && forall k | k in m :: convert(entries[k]) == Some(m[k])
    ensures AllEntries(entries, convert) == Some(m)
  {
    assert forall k | k in entries :: convert(entries[k]) == Some(m[k]);
    assert AllEntries(entries, convert).value == m;
  }

  function AsTable(n: Option<Node>): Option<map<string, string>> {
    if n.None? then None
    else match n.value
      case Null => Some(map[])
      case Scalar(_) => Some(map[])
      case Sequence(items) => if items == [] then Some(map[]) else None
      case Mapping(entries) => AllEntries(entries, ItemText)
  }

  lemma TableRoundTrip(m: map<string, string>)
    ensures AsTable(Some(Table(m))) == Some(m)
  {
    if m != map[] {
      AllEntriesAre(Table(m).entries, ItemText, m);
    }
  }

  /** The encoder's loop over the table, in whatever order its entries come. */
  method EncodeTable(m: map<string, string>) returns (node: Node)
    ensures node == Table(m)
  {
    node := Null;
    var left := m.Keys;
    while left != {}
      invariant left <= m.Keys
      invariant node == Table(map k | k in m && k !in left :: m[k])
      decreases |left|
    {
      var key :| key in left;
      ghost var before := map k | k in m && k !in left :: m[k];
      left := left - {key};
      node := node.Set(key, Scalar(m[key]));
      ghost var after := map k | k in m && k !in left :: m[k];
      assert key in after;
      assert node.entries == Table(after).entries;
    }
    assert (map k | k in m && k !in left :: m[k]) == m;
  }
}
