// The byte format of the Lua serializer: what the writer emits for a list of values and
// what the reader makes of a byte string (rednet-src/lua/uluaseri.cc,
// rednet-src/lua/uluaseri.h).

module LuaFormat {
  import opened Common
  import opened LuaValues

  const MAX_COOKIE := 32
  const MAX_DEPTH := 32

  datatype Error = InvalidStream | TooDeep | Unsupported | BadLength

  // A value read and the bytes behind it.
  datatype Parsed<+T> = Parsed(value: T, rest: seq<Byte>)

  // ------------------------------------------------------- tags and numbers

  const NIL := 0
  const BOOLEAN := 1
  const NUMBER := 2
  const USERDATA := 3
  const SHORT_STRING := 4
  const LONG_STRING := 5
  const TABLE := 6

  const ZERO := 0
  const BYTE := 1
  const WORD := 2
  const DWORD := 4
  const QWORD := 6
  const REAL := 8

  function Tag(kind: nat, cookie: nat): (b: Byte)
    requires kind < 8 && cookie < MAX_COOKIE
    ensures b % 8 == kind && b / 8 == cookie
  {
    kind + 8 * cookie
  }

  function Pow256(width: nat): (p: int)
    ensures p > 0
  {
    if width == 0 then 1 else 256 * Pow256(width - 1)
  }

  // The low `width` bytes of n, least significant first.
  function LittleEndian(n: nat, width: nat): (s: seq<Byte>)
    ensures |s| == width
    decreases width
  {
    if width == 0 then [] else [n % 256] + LittleEndian(n / 256, width - 1)
  }

  function FromLittleEndian(s: seq<Byte>): nat {
    if s == [] then 0 else s[0] + 256 * FromLittleEndian(s[1..])
  }

  lemma {:induction false} LittleEndianRoundTrip(n: nat, width: nat)
    requires n < Pow256(width)
    ensures FromLittleEndian(LittleEndian(n, width)) == n
    decreases width
  {
    if width > 0 {
      LittleEndianRoundTrip(n / 256, width - 1);
      assert LittleEndian(n, width)[1..] == LittleEndian(n / 256, width - 1);
    }
  }

  // Two's complement, both ways.
  function Wrap(i: int, width: nat): (n: nat)
    requires -Pow256(width) <= i < Pow256(width)
    ensures n < Pow256(width)
  {
    if i < 0 then i + Pow256(width) else i
  }

  function Signed(n: nat, width: nat): int {
    if 2 * n >= Pow256(width) then n - Pow256(width) else n
  }

  function Width(cookie: nat): nat {
    match cookie
    case 1 => 1
    case 2 => 2
    case 4 => 4
    case 6 => 8
    case _ => 0
  }

  predicate IsInteger64(i: int) {
    -0x8000_0000_0000_0000 <= i < 0x8000_0000_0000_0000
  }

  function IntegerCookie(i: int): nat {
    if i == 0 then ZERO
    else if !(-INT_LIMIT <= i < INT_LIMIT) then QWORD
    else if i < 0 then DWORD
    else if i < 0x100 then BYTE
    else if i < 0x1_0000 then WORD
    else DWORD
  }

  lemma Powers()
    ensures Pow256(0) == 1 && Pow256(1) == 0x100 && Pow256(2) == 0x1_0000
    ensures Pow256(4) == 0x1_0000_0000 && Pow256(8) == 0x1_0000_0000_0000_0000
  {
    assert Pow256(3) == 0x100_0000;
    assert Pow256(5) == 0x100_0000_0000;
    assert Pow256(6) == 0x1_0000_0000_0000;
    assert Pow256(7) == 0x100_0000_0000_0000;
  }

  // The payload of an integer, behind its tag.
  function IntegerBytes(i: int): seq<Byte>
    requires IsInteger64(i)
  {
    Powers();
    LittleEndian(Wrap(i, Width(IntegerCookie(i))), Width(IntegerCookie(i)))
  }

  function ReadInt(cookie: nat, s: seq<Byte>): (r: Result<Parsed<int>, Error>)
    ensures r.Ok? ==> |r.value.rest| <= |s|
  {
    if cookie !in {ZERO, BYTE, WORD, DWORD, QWORD} || |s| < Width(cookie) then Err(InvalidStream)
    else
      var n := FromLittleEndian(s[..Width(cookie)]);
      Ok(Parsed(if cookie == DWORD || cookie == QWORD then Signed(n, Width(cookie)) else n,
                s[Width(cookie)..]))
  }

  lemma IntegerRoundTrip(i: int, rest: seq<Byte>)
    requires IsInteger64(i)
    ensures ReadInt(IntegerCookie(i), IntegerBytes(i) + rest) == Ok(Parsed(i, rest))
  {
    Powers();
    var width := Width(IntegerCookie(i));
    var n := Wrap(i, width);
    LittleEndianRoundTrip(n, width);
    var s := IntegerBytes(i) + rest;
    assert s[..width] == LittleEndian(n, width);
    assert s[width..] == rest;
  }

  // ---------------------------------------------------------------- writing

  function PackInteger(i: int): seq<Byte>
    requires IsInteger64(i)
  {
    [Tag(NUMBER, IntegerCookie(i))] + IntegerBytes(i)
  }

  // The length is cut to an int, and the tag of a short string to a byte.
  function PackString(bytes: seq<Byte>): seq<Byte> {
    var n := Truncate32(|bytes|);
    if n < MAX_COOKIE then [Tag(SHORT_STRING, n % MAX_COOKIE)] + Prefix(bytes, n)
    else
      var width := if n < 0x1_0000 then 2 else 4;
      [Tag(LONG_STRING, width)] + LittleEndian(n, width) + Prefix(bytes, n)
  }

  function Prefix(bytes: seq<Byte>, n: int): seq<Byte>
    requires n <= |bytes|
  {
    if n > 0 then bytes[..n] else []
  }

  function Truncate32(i: int): (n: int)
    ensures -INT_LIMIT <= n < INT_LIMIT && (0 <= i ==> n <= i)
    ensures 0 <= i < INT_LIMIT ==> n == i
  {
    var n := i % 0x1_0000_0000;
    if n >= INT_LIMIT then n - 0x1_0000_0000 else n
  }

  // The head of a table with n array items. From 31 items on, the count follows as a
  // number with a number's tag.
  function PackHead(n: nat): seq<Byte>
    requires n < INT_LIMIT
  {
    if n >= MAX_COOKIE - 1 then [Tag(TABLE, MAX_COOKIE - 1)] + PackInteger(n)
    else [Tag(TABLE, n)]
  }

  function Pack(v: Value, depth: nat): Result<seq<Byte>, Error>
    requires WellFormed(v)
    decreases v
  {
    if depth > MAX_DEPTH then Err(TooDeep)
    else
      match v
      case Nil => Ok([Tag(NIL, 0)])
      case Boolean(flag) => Ok([Tag(BOOLEAN, if flag then 1 else 0)])
      case Integer(i) => Ok(PackInteger(i))
      case Real(image) => Ok([Tag(NUMBER, REAL)] + image)
      case Pointer(image) => Ok([Tag(USERDATA, 0)] + image)
      case String(bytes) => Ok(PackString(bytes))
      case Table(items, pairs) =>
        assert forall i :: 0 <= i < |pairs| ==> PairWellFormed(pairs[i], |items|);
        var a :- PackItems(items, depth + 1);
        var h :- PackPairs(pairs, depth + 1);
        Ok(PackHead(|items|) + a + h + [Tag(NIL, 0)])
      case Other => Err(Unsupported)
  }

  function PackItems(items: seq<Value>, depth: nat): Result<seq<Byte>, Error>
    requires forall i :: 0 <= i < |items| ==> WellFormed(items[i])
    decreases items
  {
    if items == [] then Ok([])
    else
      var x :- Pack(items[0], depth);
      var y :- PackItems(items[1..], depth);
      Ok(x + y)
  }

  function PackPairs(pairs: seq<Pair>, depth: nat): Result<seq<Byte>, Error>
    requires forall i :: 0 <= i < |pairs| ==> BothWellFormed(pairs[i])
    decreases pairs
  {
    if pairs == [] then Ok([])
    else
      var x :- PackPair(pairs[0], depth);
      var y :- PackPairs(pairs[1..], depth);
      Ok(x + y)
  }

  function PackPair(p: Pair, depth: nat): Result<seq<Byte>, Error>
    requires BothWellFormed(p)
    decreases p
  {
    var k :- Pack(p.key, depth);
    var v :- Pack(p.value, depth);
    Ok(k + v)
  }

  // The arguments of one call, one after the other.
  function PackAll(vs: seq<Value>): Result<seq<Byte>, Error>
    requires forall i :: 0 <= i < |vs| ==> WellFormed(vs[i])
  {
    PackItems(vs, 0)
  }

  // ---------------------------------------------------------------- reading

  function ReadBytes(n: nat, s: seq<Byte>): (r: Result<Parsed<seq<Byte>>, Error>)
    ensures r.Ok? ==> |r.value.rest| <= |s|
  {
    if |s| < n then Err(InvalidStream) else Ok(Parsed(s[..n], s[n..]))
  }

  // A length that is negative as an int passes the test of what is left and moves the cursor
  // back; no Lua string is that long, so making one raises an error.
  function ReadString(cookie: nat, s: seq<Byte>): (r: Result<Parsed<Value>, Error>)
    ensures r.Ok? ==> |r.value.rest| <= |s|
  {
    if cookie != 2 && cookie != 4 then Err(InvalidStream)
    else
      var length :- ReadBytes(cookie, s);
      var n := Truncate32(FromLittleEndian(length.value));
      if n < 0 then Err(BadLength)
      else
        var bytes :- ReadBytes(n, length.rest);
        Ok(Parsed(String(bytes.value), bytes.rest))
  }

  function ReadOne(s: seq<Byte>): (r: Result<Parsed<Value>, Error>)
    ensures r.Ok? ==> |r.value.rest| < |s|
    decreases |s|, 0
  {
    if s == [] then Err(InvalidStream) else ReadValue(s[0] % 8, s[0] / 8, s[1..])
  }

  function ReadValue(kind: nat, cookie: nat, s: seq<Byte>): (r: Result<Parsed<Value>, Error>)
    requires cookie < MAX_COOKIE
    ensures r.Ok? ==> |r.value.rest| <= |s|
    decreases |s|, 4
  {
    match kind
    case 0 => Ok(Parsed(Nil, s))
    case 1 => Ok(Parsed(Boolean(cookie != 0), s))
    case 2 =>
      if cookie == REAL then
        var image :- ReadBytes(8, s);
        Ok(Parsed(Real(image.value), image.rest))
      else
        var i :- ReadInt(cookie, s);
        Ok(Parsed(Integer(i.value), i.rest))
    case 3 =>
      var image :- ReadBytes(8, s);
      Ok(Parsed(Pointer(image.value), image.rest))
    case 4 =>
      var bytes :- ReadBytes(cookie, s);
      Ok(Parsed(String(bytes.value), bytes.rest))
    case 5 => ReadString(cookie, s)
    case 6 => ReadTable(cookie, s)
    case _ => Err(InvalidStream)
  }

  // With the largest cookie the array size follows, behind what must be a table tag.
  function ReadTable(cookie: nat, s: seq<Byte>): (r: Result<Parsed<Value>, Error>)
    requires cookie < MAX_COOKIE
    ensures r.Ok? ==> |r.value.rest| <= |s|
    decreases |s|, 3
  {
    if cookie == MAX_COOKIE - 1 then
      if s == [] || s[0] % 8 != TABLE || s[0] / 8 == REAL then Err(InvalidStream)
      else
        var n :- ReadInt(s[0] / 8, s[1..]);
        ReadBody(Truncate32(n.value), n.rest)
    else ReadBody(cookie, s)
  }

  function ReadBody(n: int, s: seq<Byte>): (r: Result<Parsed<Value>, Error>)
    ensures r.Ok? ==> |r.value.rest| <= |s|
    decreases |s|, 2
  {
    var items :- ReadItems(n, s);
    ReadPairs(Table(items.value, []), items.rest)
  }

  function ReadItems(n: int, s: seq<Byte>): (r: Result<Parsed<seq<Value>>, Error>)
    ensures r.Ok? ==> |r.value.rest| <= |s|
    decreases |s|, 1
  {
    if n <= 0 then Ok(Parsed([], s))
    else
      var v :- ReadOne(s);
      var more :- ReadItems(n - 1, v.rest);
      Ok(Parsed([v.value] + more.value, more.rest))
  }

  function ReadPairs(t: Value, s: seq<Byte>): (r: Result<Parsed<Value>, Error>)
    requires t.Table?
    ensures r.Ok? ==> |r.value.rest| <= |s|
    decreases |s|, 1
  {
    var k :- ReadOne(s);
    if k.value == Nil then Ok(Parsed(t, k.rest))
    else
      var v :- ReadOne(k.rest);
      ReadPairs(RawSet(t, k.value, v.value), v.rest)
  }

  function UnpackAll(s: seq<Byte>): Result<seq<Value>, Error>
    decreases |s|
  {
    if s == [] then Ok([])
    else
      var v :- ReadOne(s);
      var more :- UnpackAll(v.rest);
      Ok([v.value] + more)
  }

  // ------------------------------------------------------------- round trip

  // No table in the value has 31 array items or more.
  ghost predicate Short(v: Value)
    decreases v
  {
    v.Table? ==>
      && |v.items| < MAX_COOKIE - 1
      && (forall i :: 0 <= i < |v.items| ==> Short(v.items[i]))
      && (forall i :: 0 <= i < |v.pairs| ==> ShortPair(v.pairs[i]))
  }

  ghost predicate ShortPair(p: Pair)
    decreases p
  {
    Short(p.key) && Short(p.value)
  }

  ghost predicate AllShort(vs: seq<Value>) {
    forall i :: 0 <= i < |vs| ==> Short(vs[i])
  }

  ghost predicate AllShortPairs(pairs: seq<Pair>) {
    forall i :: 0 <= i < |pairs| ==> ShortPair(pairs[i])
  }

  // What the reader returns for a packed value.
  ghost function Expected<T>(short: bool, value: T, rest: seq<Byte>): Result<Parsed<T>, Error> {
    if short then Ok(Parsed(value, rest)) else Err(InvalidStream)
  }

  lemma ReadTagged(kind: nat, cookie: nat, body: seq<Byte>, rest: seq<Byte>)
    requires kind < 8 && cookie < MAX_COOKIE
    ensures ReadOne([Tag(kind, cookie)] + body + rest) == ReadValue(kind, cookie, body + rest)
  {
    var s := [Tag(kind, cookie)] + body + rest;
    assert s[1..] == body + rest;
  }

  lemma ReadWhole(body: seq<Byte>, rest: seq<Byte>)
    ensures ReadBytes(|body|, body + rest) == Ok(Parsed(body, rest))
  {
    assert (body + rest)[..|body|] == body && (body + rest)[|body|..] == rest;
  }

  lemma StringRoundTrip(bytes: seq<Byte>, rest: seq<Byte>)
    requires |bytes| < INT_LIMIT
    ensures ReadOne(PackString(bytes) + rest) == Ok(Parsed(String(bytes), rest))
  {
    assert Prefix(bytes, |bytes|) == bytes;
    if |bytes| < MAX_COOKIE {
      ReadTagged(SHORT_STRING, |bytes|, bytes, rest);
      ReadWhole(bytes, rest);
    } else {
      Powers();
      var width := if |bytes| < 0x1_0000 then 2 else 4;
      var length := LittleEndian(|bytes|, width);
      LittleEndianRoundTrip(|bytes|, width);
      ReadTagged(LONG_STRING, width, length + bytes, rest);
      assert [Tag(LONG_STRING, width)] + (length + bytes) + rest
        == [Tag(LONG_STRING, width)] + length + bytes + rest;
      assert length + bytes + rest == length + (bytes + rest);
      ReadWhole(length, bytes + rest);
      ReadWhole(bytes, rest);
    }
  }

  lemma ScalarRoundTrip(v: Value, depth: nat, rest: seq<Byte>)
    requires WellFormed(v) && Fits(v) && !v.Table? && Pack(v, depth).Ok?
    ensures ReadOne(Pack(v, depth).value + rest) == Ok(Parsed(v, rest))
  {
    hide PackString, ReadString, IntegerBytes, IntegerCookie;
    match v {
      case Nil =>
        ReadTagged(NIL, 0, [], rest);
        assert [Tag(NIL, 0)] + [] + rest == [Tag(NIL, 0)] + rest;
        assert [] + rest == rest;
      case Boolean(flag) =>
        var tag := Tag(BOOLEAN, if flag then 1 else 0);
        ReadTagged(BOOLEAN, if flag then 1 else 0, [], rest);
        assert [tag] + [] + rest == [tag] + rest;
        assert [] + rest == rest;
      case Integer(i) =>
        ReadTagged(NUMBER, IntegerCookie(i), IntegerBytes(i), rest);
        IntegerRoundTrip(i, rest);
      case Real(image) =>
        ReadTagged(NUMBER, REAL, image, rest);
        ReadWhole(image, rest);
      case Pointer(image) =>
        ReadTagged(USERDATA, 0, image, rest);
        ReadWhole(image, rest);
      case String(bytes) => StringRoundTrip(bytes, rest);
    }
  }

  lemma {:induction false} ValueRoundTrip(v: Value, depth: nat, rest: seq<Byte>)
    requires WellFormed(v) && Fits(v) && Pack(v, depth).Ok?
    ensures ReadOne(Pack(v, depth).value + rest) == Expected(Short(v), v, rest)
    decreases v, 1
  {
    if v.Table? {
      TableRoundTrip(v, depth, rest);
    } else {
      ScalarRoundTrip(v, depth, rest);
    }
  }

  lemma {:induction false} TableRoundTrip(v: Value, depth: nat, rest: seq<Byte>)
    requires WellFormed(v) && Fits(v) && v.Table? && Pack(v, depth).Ok?
    ensures ReadOne(Pack(v, depth).value + rest) == Expected(Short(v), v, rest)
    decreases v, 0
  {
    hide ReadOne, ReadItems, ReadPairs, Short, AllShort, AllShortPairs;
    var n := |v.items|;
    assert forall i :: 0 <= i < |v.pairs| ==> PairWellFormed(v.pairs[i], n);
    var a := PackItems(v.items, depth + 1).value;
    var h := PackPairs(v.pairs, depth + 1).value;
    var end := [Tag(NIL, 0)];
    assert Pack(v, depth).value == PackHead(n) + a + h + end;
    if n >= MAX_COOKIE - 1 {
      LongTableRejected(n, a + h + end, rest);
      LongIsNotShort(v);
      assert PackHead(n) + (a + h + end) == Pack(v, depth).value;
    } else {
      ItemsRoundTrip(v.items, depth + 1, h + end + rest);
      PairsRoundTrip(v.items, [], v.pairs, depth + 1, rest);
      assert [] + v.pairs == v.pairs;
      ShortTableRead(v.items, v.pairs, a, h, rest);
    }
  }

  lemma ReadShortHead(n: nat, a: seq<Byte>, h: seq<Byte>, rest: seq<Byte>)
    requires n < MAX_COOKIE - 1
    ensures ReadOne(PackHead(n) + a + h + [Tag(NIL, 0)] + rest)
      == ReadBody(n, a + (h + [Tag(NIL, 0)] + rest))
  {
    hide ReadBody;
    var end := [Tag(NIL, 0)];
    ReadTagged(TABLE, n, a + h + end, rest);
    assert [Tag(TABLE, n)] + (a + h + end) + rest == PackHead(n) + a + h + end + rest;
    assert a + h + end + rest == a + (h + end + rest);
  }

  lemma ShortTableRead(items: seq<Value>, pairs: seq<Pair>, a: seq<Byte>, h: seq<Byte>, rest: seq<Byte>)
    requires |items| < MAX_COOKIE - 1
    requires ReadItems(|items|, a + (h + [Tag(NIL, 0)] + rest))
      == Expected(AllShort(items), items, h + [Tag(NIL, 0)] + rest)
    requires ReadPairs(Table(items, []), h + [Tag(NIL, 0)] + rest)
      == Expected(AllShortPairs(pairs), Table(items, pairs), rest)
    ensures ReadOne(PackHead(|items|) + a + h + [Tag(NIL, 0)] + rest)
      == Expected(Short(Table(items, pairs)), Table(items, pairs), rest)
  {
    hide ReadOne, ReadItems, ReadPairs, ReadBody, Short, AllShort, AllShortPairs, PackHead;
    var tail := h + [Tag(NIL, 0)] + rest;
    ReadShortHead(|items|, a, h, rest);
    ReadBodyIs(items, pairs, a + tail, tail, rest);
    ShortTable(items, pairs);
  }

  lemma ShortTable(items: seq<Value>, pairs: seq<Pair>)
    requires |items| < MAX_COOKIE - 1
    ensures Short(Table(items, pairs)) <==> AllShort(items) && AllShortPairs(pairs)
  {
    var t := Table(items, pairs);
    assert Short(t) ==> forall i :: 0 <= i < |t.pairs| ==> ShortPair(t.pairs[i]);
  }

  lemma LongIsNotShort(v: Value)
    requires v.Table? && |v.items| >= MAX_COOKIE - 1
    ensures !Short(v)
  {
  }

  // The count of a long table carries a number's tag, and the reader wants a table's.
  lemma LongTableRejected(n: nat, body: seq<Byte>, rest: seq<Byte>)
    requires MAX_COOKIE - 1 <= n < INT_LIMIT
    ensures ReadOne(PackHead(n) + body + rest) == Err(InvalidStream)
  {
    var head := PackInteger(n);
    ReadTagged(TABLE, MAX_COOKIE - 1, head + body, rest);
    assert [Tag(TABLE, MAX_COOKIE - 1)] + (head + body) + rest == PackHead(n) + body + rest;
    assert (head + body + rest)[0] == Tag(NUMBER, IntegerCookie(n));
  }

  lemma ReadBodyIs(items: seq<Value>, pairs: seq<Pair>, s: seq<Byte>, t: seq<Byte>, rest: seq<Byte>)
    requires ReadItems(|items|, s) == Expected(AllShort(items), items, t)
    requires ReadPairs(Table(items, []), t) == Expected(AllShortPairs(pairs), Table(items, pairs), rest)
    ensures ReadBody(|items|, s)
      == Expected(AllShort(items) && AllShortPairs(pairs), Table(items, pairs), rest)
  {
  }

  lemma {:induction false} ItemsRoundTrip(items: seq<Value>, depth: nat, rest: seq<Byte>)
    requires forall i :: 0 <= i < |items| ==> WellFormed(items[i])
    requires AllFit(items) && PackItems(items, depth).Ok?
    ensures ReadItems(|items|, PackItems(items, depth).value + rest) == Expected(AllShort(items), items, rest)
    decreases items
  {
    hide ReadOne, Pack, Short;
    if items == [] {
      assert [] + rest == rest;
    } else {
      var x := Pack(items[0], depth).value;
      var y := PackItems(items[1..], depth).value;
      assert x + y + rest == x + (y + rest);
      ValueRoundTrip(items[0], depth, y + rest);
      ItemsRoundTrip(items[1..], depth, rest);
      assert items == [items[0]] + items[1..];
      assert AllShort(items) <==> Short(items[0]) && AllShort(items[1..]);
    }
  }

  ghost predicate PairsOk(done: seq<Pair>, todo: seq<Pair>, n: nat) {
    && DistinctKeys(done + todo)
    && (forall i :: 0 <= i < |todo| ==> PairWellFormed(todo[i], n))
    && (forall i :: 0 <= i < |todo| ==> BothWellFormed(todo[i]))
    && (forall i :: 0 <= i < |todo| ==> PairFits(todo[i]))
  }

  lemma {:induction false} PairsRoundTrip(
    items: seq<Value>, done: seq<Pair>, todo: seq<Pair>, depth: nat, rest: seq<Byte>)
    requires PairsOk(done, todo, |items|) && PackPairs(todo, depth).Ok?
    ensures ReadPairs(Table(items, done), PackPairs(todo, depth).value + [Tag(NIL, 0)] + rest)
      == Expected(AllShortPairs(todo), Table(items, done + todo), rest)
    decreases todo
  {
    hide PackPair, Short, RawSet;
    var end := [Tag(NIL, 0)];
    if todo == [] {
      assert [] + end + rest == end + [] + rest;
      ReadTagged(NIL, 0, [], rest);
      assert done + [] == done && [] + rest == rest;
    } else {
      var p := todo[0];
      var x, y := PackPair(p, depth).value, PackPairs(todo[1..], depth).value;
      assert x + y + end + rest == x + (y + end + rest);
      assert done + todo == done + [p] + todo[1..];
      KeyIsNew(done, todo);
      SetNew(done, p.key, p.value);
      assert RawSet(Table(items, done), p.key, p.value) == Table(items, done + [p]) by {
        SetIsAppend(items, done, p);
      }
      PairRoundTrip(p, depth, Table(items, done), y + end + rest);
      PairsRoundTrip(items, done + [p], todo[1..], depth, rest);
      assert todo == [p] + todo[1..];
      assert AllShortPairs(todo) <==> ShortPair(p) && AllShortPairs(todo[1..]);
    }
  }

  lemma SetIsAppend(items: seq<Value>, done: seq<Pair>, p: Pair)
    requires Set(done, p.key, p.value) == done + [p] && !InArray(p.key, |items|)
    ensures RawSet(Table(items, done), p.key, p.value) == Table(items, done + [p])
  {
  }

  lemma KeyIsNew(done: seq<Pair>, todo: seq<Pair>)
    requires todo != [] && DistinctKeys(done + todo)
    ensures !HasKey(done, todo[0].key)
  {
    forall i | 0 <= i < |done| ensures done[i].key != todo[0].key {
      assert (done + todo)[i] == done[i] && (done + todo)[|done|] == todo[0];
    }
  }

  lemma {:induction false} PairRoundTrip(p: Pair, depth: nat, t: Value, rest: seq<Byte>)
    requires BothWellFormed(p) && PairFits(p) && p.key != Nil && t.Table? && PackPair(p, depth).Ok?
    ensures ReadPairs(t, PackPair(p, depth).value + rest)
      == if ShortPair(p) then ReadPairs(RawSet(t, p.key, p.value), rest) else Err(InvalidStream)
    decreases p
  {
    var k, v := Pack(p.key, depth).value, Pack(p.value, depth).value;
    assert k + v + rest == k + (v + rest);
    ValueRoundTrip(p.key, depth, v + rest);
    ValueRoundTrip(p.value, depth, rest);
  }

  lemma {:induction false} FittingRoundTrip(vs: seq<Value>)
    requires forall i :: 0 <= i < |vs| ==> WellFormed(vs[i])
    requires AllFit(vs) && PackAll(vs).Ok?
    ensures UnpackAll(PackAll(vs).value) == if AllShort(vs) then Ok(vs) else Err(InvalidStream)
  {
    if vs != [] {
      var x := Pack(vs[0], 0).value;
      var y := PackItems(vs[1..], 0).value;
      ValueRoundTrip(vs[0], 0, y);
      FittingRoundTrip(vs[1..]);
      assert vs == [vs[0]] + vs[1..];
      assert AllShort(vs) <==> Short(vs[0]) && AllShort(vs[1..]);
    }
  }

  // Reading back what was written returns the same values and consumes every byte, if and
  // only if no table anywhere in them has 31 array items or more and no string 2^31 bytes or
  // more; a stream with such a table, but no such string, is rejected.
  lemma RoundTrip(vs: seq<Value>)
    requires forall i :: 0 <= i < |vs| ==> WellFormed(vs[i])
    requires PackAll(vs).Ok?
    ensures UnpackAll(PackAll(vs).value) == Ok(vs) <==> AllShort(vs) && AllFit(vs)
    ensures AllFit(vs) && !AllShort(vs) ==> UnpackAll(PackAll(vs).value) == Err(InvalidStream)
  {
    hide PackAll, UnpackAll, AllShort, AllFit;
    if UnpackAll(PackAll(vs).value).Ok? {
      UnpackedFits(PackAll(vs).value);
    }
    if AllFit(vs) {
      FittingRoundTrip(vs);
    }
  }

  // Of a string whose length is negative as an int only a tag is written.
  lemma LongStringLost(bytes: seq<Byte>)
    requires INT_LIMIT <= |bytes| < 2 * INT_LIMIT
    ensures PackString(bytes) == [Tag(SHORT_STRING, |bytes| % MAX_COOKIE)]
  {
  }

  // ------------------------------------------------ what the reader returns

  // Every string that is read has a length that fits.
  lemma {:induction false} OneFits(s: seq<Byte>)
    requires ReadOne(s).Ok?
    ensures Fits(ReadOne(s).value.value)
    decreases |s|, 0
  {
    ValueFits(s[0] % 8, s[0] / 8, s[1..]);
  }

  lemma {:induction false} ValueFits(kind: nat, cookie: nat, s: seq<Byte>)
    requires cookie < MAX_COOKIE && ReadValue(kind, cookie, s).Ok?
    ensures Fits(ReadValue(kind, cookie, s).value.value)
    decreases |s|, 4
  {
    hide ReadBytes, ReadInt, ReadBody, FromLittleEndian;
    match kind {
      case 4 => StringFits(cookie, s);
      case 5 =>
        var length := ReadBytes(cookie, s).value;
        StringFits(Truncate32(FromLittleEndian(length.value)), length.rest);
      case 6 =>
        if cookie == MAX_COOKIE - 1 {
          var n := ReadInt(s[0] / 8, s[1..]).value;
          BodyFits(Truncate32(n.value), n.rest);
        } else {
          BodyFits(cookie, s);
        }
      case _ =>
    }
  }

  lemma StringFits(n: nat, s: seq<Byte>)
    requires n < INT_LIMIT && ReadBytes(n, s).Ok?
    ensures Fits(String(ReadBytes(n, s).value.value))
  {
  }

  lemma {:induction false} BodyFits(n: int, s: seq<Byte>)
    requires ReadBody(n, s).Ok?
    ensures Fits(ReadBody(n, s).value.value)
    decreases |s|, 2
  {
    hide ReadItems, ReadPairs;
    ItemsFit(n, s);
    var items := ReadItems(n, s).value;
    PairsFit(Table(items.value, []), items.rest);
  }

  lemma {:induction false} ItemsFit(n: int, s: seq<Byte>)
    requires ReadItems(n, s).Ok?
    ensures AllFit(ReadItems(n, s).value.value)
    decreases |s|, 1
  {
    hide ReadOne, Fits;
    if n > 0 {
      OneFits(s);
      ItemsFit(n - 1, ReadOne(s).value.rest);
    }
  }

  lemma {:induction false} PairsFit(t: Value, s: seq<Byte>)
    requires t.Table? && Fits(t) && ReadPairs(t, s).Ok?
    ensures Fits(ReadPairs(t, s).value.value)
    decreases |s|, 1
  {
    hide ReadOne, Fits, RawSet;
    OneFits(s);
    var k := ReadOne(s).value;
    if k.value != Nil {
      var v := ReadOne(k.rest).value;
      OneFits(k.rest);
      RawSetFits(t, k.value, v.value);
      PairsFit(RawSet(t, k.value, v.value), v.rest);
    }
  }

  lemma RawSetFits(t: Value, k: Value, v: Value)
    requires t.Table? && Fits(t) && Fits(k) && Fits(v)
    ensures Fits(RawSet(t, k, v))
  {
    if !InArray(k, |t.items|) {
      SetFits(t.pairs, k, v);
    }
  }

  lemma {:induction false} SetFits(pairs: seq<Pair>, k: Value, v: Value)
    requires (forall i :: 0 <= i < |pairs| ==> PairFits(pairs[i])) && Fits(k) && Fits(v)
    ensures forall i :: 0 <= i < |Set(pairs, k, v)| ==> PairFits(Set(pairs, k, v)[i])
  {
    hide Fits;
    if pairs != [] && pairs[0].key != k {
      SetFits(pairs[1..], k, v);
    }
  }

  lemma {:induction false} UnpackedFits(s: seq<Byte>)
    requires UnpackAll(s).Ok?
    ensures AllFit(UnpackAll(s).value)
    decreases |s|
  {
    hide ReadOne, Fits;
    if s != [] {
      OneFits(s);
      UnpackedFits(ReadOne(s).value.rest);
    }
  }

  // ------------------------------------------------------------ depth limit

  function Max(x: nat, y: nat): nat {
    if x < y then y else x
  }

  // How many levels of tables are below a value.
  function Depth(v: Value): nat
    decreases v
  {
    if v.Table? then Max(DepthOfItems(v.items), DepthOfPairs(v.pairs)) else 0
  }

  function DepthOfItems(items: seq<Value>): nat
    decreases items
  {
    if items == [] then 0 else Max(1 + Depth(items[0]), DepthOfItems(items[1..]))
  }

  function DepthOfPairs(pairs: seq<Pair>): nat
    decreases pairs
  {
    if pairs == [] then 0 else Max(DepthOfPair(pairs[0]), DepthOfPairs(pairs[1..]))
  }

  function DepthOfPair(p: Pair): nat
    decreases p
  {
    1 + Max(Depth(p.key), Depth(p.value))
  }

  ghost predicate Supported(v: Value)
    decreases v
  {
    && v != Other
    && (v.Table? ==>
          && (forall i :: 0 <= i < |v.items| ==> Supported(v.items[i]))
          && (forall i :: 0 <= i < |v.pairs| ==> SupportedPair(v.pairs[i])))
  }

  ghost predicate SupportedPair(p: Pair)
    decreases p
  {
    Supported(p.key) && Supported(p.value)
  }

  // The writer succeeds exactly on supported values whose tables nest within the limit.
  lemma {:induction false} PackSucceeds(v: Value, depth: nat)
    requires WellFormed(v)
    ensures Pack(v, depth).Ok? <==> Supported(v) && depth + Depth(v) <= MAX_DEPTH
    decreases v, 1
  {
    if v.Table? && depth <= MAX_DEPTH {
      PackTableSucceeds(v, depth);
    } else {
      assert !v.Table? ==> Depth(v) == 0;
    }
  }

  lemma {:induction false} PackTableSucceeds(v: Value, depth: nat)
    requires WellFormed(v) && v.Table? && depth <= MAX_DEPTH
    ensures Pack(v, depth).Ok? <==> Supported(v) && depth + Depth(v) <= MAX_DEPTH
    decreases v, 0
  {
    assert forall i :: 0 <= i < |v.pairs| ==> PairWellFormed(v.pairs[i], |v.items|);
    PackItemsSucceeds(v.items, depth + 1);
    PackPairsSucceeds(v.pairs, depth + 1);
    TableSupported(v);
    hide Supported, WellFormed, PackItems, PackPairs;
  }

  lemma TableSupported(v: Value)
    requires v.Table?
    ensures Supported(v) <==>
      ((forall i :: 0 <= i < |v.items| ==> Supported(v.items[i]))
       && (forall i :: 0 <= i < |v.pairs| ==> SupportedPair(v.pairs[i])))
  {
  }

  lemma {:induction false} PackItemsSucceeds(items: seq<Value>, depth: nat)
    requires forall i :: 0 <= i < |items| ==> WellFormed(items[i])
    requires 0 < depth <= MAX_DEPTH + 1
    ensures PackItems(items, depth).Ok?
      <==> (forall i :: 0 <= i < |items| ==> Supported(items[i])) && depth - 1 + DepthOfItems(items) <= MAX_DEPTH
    decreases items
  {
    if items != [] {
      PackSucceeds(items[0], depth);
      PackItemsSucceeds(items[1..], depth);
      assert items == [items[0]] + items[1..];
    }
  }

  lemma {:induction false} PackPairsSucceeds(pairs: seq<Pair>, depth: nat)
    requires forall i :: 0 <= i < |pairs| ==> BothWellFormed(pairs[i])
    requires 0 < depth <= MAX_DEPTH + 1
    ensures PackPairs(pairs, depth).Ok?
      <==> (forall i :: 0 <= i < |pairs| ==> SupportedPair(pairs[i])) && depth - 1 + DepthOfPairs(pairs) <= MAX_DEPTH
    decreases pairs
  {
    if pairs != [] {
      PackPairSucceeds(pairs[0], depth);
      PackPairsSucceeds(pairs[1..], depth);
      assert pairs == [pairs[0]] + pairs[1..];
    }
  }

  lemma {:induction false} PackPairSucceeds(p: Pair, depth: nat)
    requires BothWellFormed(p) && 0 < depth <= MAX_DEPTH + 1
    ensures PackPair(p, depth).Ok? <==> SupportedPair(p) && depth - 1 + DepthOfPair(p) <= MAX_DEPTH
    decreases p
  {
    PackSucceeds(p.key, depth);
    PackSucceeds(p.value, depth);
  }
}
