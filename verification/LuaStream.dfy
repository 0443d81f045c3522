// The serializer as it runs: a writer onto a chain of 128-byte blocks and a reader that
// moves a cursor over a flat buffer (rednet-src/lua/uluaseri.h, rednet-src/lua/uluaseri.cc).

module LuaStream {
  import opened Common
  import opened LuaValues
  import opened LuaFormat

  const BLOCK_SIZE := 128

  datatype Status = Done | Failed(error: Error)

  // `done` written or read already, then what is left to come.
  ghost function After<T>(done: seq<T>, r: Result<seq<T>, Error>): Result<seq<T>, Error> {
    if r.Ok? then Ok(done + r.value) else r
  }

  lemma AfterNothing<T>(r: Result<seq<T>, Error>)
    ensures After([], r) == r
  {
    assert r.Ok? ==> [] + r.value == r.value;
  }

  lemma AfterMore<T>(done: seq<T>, more: seq<T>, r: Result<seq<T>, Error>)
    ensures After(done, After(more, r)) == After(done + more, r)
  {
    assert r.Ok? ==> done + (more + r.value) == (done + more) + r.value;
  }

  // The entries a traversal of the table shows: first the array part without its holes.
  function ArrayEntries(items: seq<Value>, n: nat): seq<Pair>
    requires n <= |items|
  {
    if n == 0 then []
    else
      ArrayEntries(items, n - 1)
      + if items[n - 1] == Nil then [] else [Pair(Integer(n), items[n - 1])]
  }

  function Traversal(t: Value): seq<Pair>
    requires t.Table?
  {
    ArrayEntries(t.items, |t.items|) + t.pairs
  }

  // What a traversal shows outside the array part 1..n.
  function Outside(entries: seq<Pair>, n: nat): seq<Pair> {
    if entries == [] then []
    else (if InArray(entries[0].key, n) then [] else [entries[0]]) + Outside(entries[1..], n)
  }

  lemma OutsideNext(entries: seq<Pair>, n: nat)
    ensures entries == [] ==> Outside(entries, n) == []
    ensures entries != [] && InArray(entries[0].key, n) ==> Outside(entries, n) == Outside(entries[1..], n)
    ensures entries != [] && !InArray(entries[0].key, n) ==>
              Outside(entries, n) == [entries[0]] + Outside(entries[1..], n)
              && Outside(entries, n)[1..] == Outside(entries[1..], n)
  {
  }

  lemma {:induction false} OutsideOfConcat(a: seq<Pair>, b: seq<Pair>, n: nat)
    ensures Outside(a + b, n) == Outside(a, n) + Outside(b, n)
  {
    hide InArray;
    if a == [] {
      assert a + b == b;
    } else {
      OutsideOfConcat(a[1..], b, n);
      assert (a + b)[1..] == a[1..] + b;
      var first := if InArray(a[0].key, n) then [] else [a[0]];
      assert first + (Outside(a[1..], n) + Outside(b, n)) == first + Outside(a[1..], n) + Outside(b, n);
    }
  }

  lemma {:induction false} ArrayIsNotOutside(items: seq<Value>, m: nat)
    requires m <= |items|
    ensures Outside(ArrayEntries(items, m), |items|) == []
  {
    if m > 0 {
      ArrayIsNotOutside(items, m - 1);
      OutsideOfConcat(ArrayEntries(items, m - 1),
                      if items[m - 1] == Nil then [] else [Pair(Integer(m), items[m - 1])], |items|);
    }
  }

  lemma {:induction false} PairsAreOutside(pairs: seq<Pair>, n: nat)
    requires forall i :: 0 <= i < |pairs| ==> !InArray(pairs[i].key, n)
    ensures Outside(pairs, n) == pairs
  {
    if pairs != [] {
      PairsAreOutside(pairs[1..], n);
    }
  }

  // The traversal shows each entry of the hash part once, in order.
  lemma TraversalOutside(t: Value)
    requires WellFormed(t) && t.Table?
    ensures Outside(Traversal(t), |t.items|) == t.pairs
  {
    forall i | 0 <= i < |t.pairs| ensures !InArray(t.pairs[i].key, |t.items|) {
      assert PairWellFormed(t.pairs[i], |t.items|);
    }
    OutsideOfConcat(ArrayEntries(t.items, |t.items|), t.pairs, |t.items|);
    ArrayIsNotOutside(t.items, |t.items|);
    PairsAreOutside(t.pairs, |t.items|);
  }

  lemma NextItem(items: seq<Value>, depth: nat)
    requires forall i :: 0 <= i < |items| ==> WellFormed(items[i])
    ensures PackItems(items, depth) ==
      if items == [] then Ok([])
      else match Pack(items[0], depth)
        case Ok(x) => After(x, PackItems(items[1..], depth))
        case Err(e) => Err(e)
  {
  }

  lemma NextPair(pairs: seq<Pair>, depth: nat)
    requires forall i :: 0 <= i < |pairs| ==> BothWellFormed(pairs[i])
    ensures PackPairs(pairs, depth) ==
      if pairs == [] then Ok([])
      else match PackPair(pairs[0], depth)
        case Ok(x) => After(x, PackPairs(pairs[1..], depth))
        case Err(e) => Err(e)
  {
  }

  // The pairs of a table with the nil that ends them.
  ghost function Closed(r: Result<seq<Byte>, Error>): Result<seq<Byte>, Error> {
    if r.Ok? then Ok(r.value + [Tag(NIL, 0)]) else r
  }

  lemma PackTableIs(v: Value, depth: nat, items: Result<seq<Byte>, Error>, pairs: Result<seq<Byte>, Error>)
    requires WellFormed(v) && v.Table? && depth <= MAX_DEPTH
    requires items == PackItems(v.items, depth + 1)
    requires forall i :: 0 <= i < |v.pairs| ==> BothWellFormed(v.pairs[i])
    requires pairs == PackPairs(v.pairs, depth + 1)
    ensures items.Err? ==> Pack(v, depth) == items
    ensures items.Ok? ==> Pack(v, depth) == After(PackHead(|v.items|) + items.value, Closed(pairs))
  {
    hide PackItems, PackPairs, PackHead;
    if items.Ok? && pairs.Ok? {
      var a, h, end := items.value, pairs.value, [Tag(NIL, 0)];
      assert PackHead(|v.items|) + a + h + end == PackHead(|v.items|) + a + (h + end);
    }
  }

  lemma PairsBothWellFormed(v: Value)
    requires WellFormed(v) && v.Table?
    ensures forall i :: 0 <= i < |v.pairs| ==> BothWellFormed(v.pairs[i])
  {
    forall i | 0 <= i < |v.pairs| ensures BothWellFormed(v.pairs[i]) {
      assert PairWellFormed(v.pairs[i], |v.items|);
    }
  }

  lemma NoBytes()
    ensures LittleEndian(0, 0) == []
  {
  }

  class WriteBlock {
    var blocks: seq<array<Byte>>
    var ptr: nat
    var len: nat
    ghost var written: seq<Byte>
    ghost var repr: set<array<Byte>>

    ghost predicate Valid()
      reads this, repr
    {
      && (forall b :: 0 <= b < |blocks| ==> blocks[b] in repr)
      && (forall b :: 0 <= b < |blocks| ==> blocks[b].Length == BLOCK_SIZE)
      && (forall b, c :: 0 <= b < c < |blocks| ==> blocks[b] != blocks[c])
      && ptr <= BLOCK_SIZE && len == |written|
      && (blocks == [] ==> len == ptr == 0)
      && (blocks != [] ==> len == BLOCK_SIZE * (|blocks| - 1) + ptr)
      && (forall b, j :: 0 <= b < |blocks| && 0 <= j < BLOCK_SIZE && BLOCK_SIZE * b + j < len ==>
            blocks[b][j] == written[BLOCK_SIZE * b + j])
    }

    constructor ()
      ensures Valid() && written == [] && blocks == [] && repr == {}
    {
      blocks, ptr, len, written, repr := [], 0, 0, [], {};
    }

    method NewBlock()
      requires Valid() && (blocks == [] || ptr == BLOCK_SIZE)
      modifies this
      ensures Valid() && fresh(repr - old(repr)) && written == old(written)
      ensures blocks != [] && ptr == 0
    {
      var block := new Byte[BLOCK_SIZE](_ => 0);
      blocks := blocks + [block];
      repr := repr + {block};
      ptr := 0;
    }

    // Bytes that fit into the current block.
    method Fill(piece: seq<Byte>)
      requires Valid() && blocks != [] && ptr + |piece| <= BLOCK_SIZE
      modifies this, repr
      ensures Valid() && blocks == old(blocks) && repr == old(repr) && written == old(written) + piece
      ensures ptr == old(ptr) + |piece|
    {
      var current := blocks[|blocks| - 1];
      forall j | 0 <= j < |piece| {
        current[ptr + j] := piece[j];
      }
      ptr := ptr + |piece|;
      len := len + |piece|;
      written := written + piece;
    }

    method Push(buffer: seq<Byte>)
      requires Valid()
      modifies this, repr
      ensures Valid() && fresh(repr - old(repr)) && written == old(written) + buffer
    {
      if blocks == [] {
        NewBlock();
      }
      if ptr == BLOCK_SIZE {
        NewBlock();
      }
      var left := buffer;
      while ptr > BLOCK_SIZE - |left|
        invariant Valid() && fresh(repr - old(repr)) && blocks != []
        invariant ptr < BLOCK_SIZE
        invariant written + left == old(written) + buffer
        decreases |left|
      {
        var room := BLOCK_SIZE - ptr;
        assert left == left[..room] + left[room..];
        Fill(left[..room]);
        left := left[room..];
        NewBlock();
      }
      Fill(left);
    }

    // The flat buffer: whole blocks while they last, then the rest of the last one.
    method Serialize() returns (buffer: seq<Byte>)
      requires Valid()
      modifies `len
      ensures buffer == written
    {
      buffer := [];
      var b := 0;
      while len > 0
        invariant 0 <= b <= |blocks| && |buffer| == BLOCK_SIZE * b
        invariant len + |buffer| == |written| && buffer == written[..|buffer|]
        decreases len
      {
        if len >= BLOCK_SIZE {
          assert blocks[b][..] == written[BLOCK_SIZE * b..BLOCK_SIZE * b + BLOCK_SIZE];
          assert written[..|buffer| + BLOCK_SIZE] == written[..|buffer|] + blocks[b][..];
          buffer := buffer + blocks[b][..];
          len := len - BLOCK_SIZE;
          b := b + 1;
        } else {
          assert blocks[b][..len] == written[BLOCK_SIZE * b..BLOCK_SIZE * b + len];
          buffer := buffer + blocks[b][..len];
          break;
        }
      }
      assert buffer == written[..|written|];
    }

    method Clear()
      modifies this
      ensures Valid() && fresh(repr - old(repr)) && written == []
    {
      blocks, ptr, len, written, repr := [], 0, 0, [], {};
    }

    // The status and, on success, the new contents agree with what the format says.
    twostate predicate Outcome(status: Status, r: Result<seq<Byte>, Error>)
      reads this
    {
      match r
      case Ok(bytes) => status == Done && written == old(written) + bytes
      case Err(e) => status == Failed(e)
    }

    method PushInteger(i: int)
      requires Valid() && IsInteger64(i)
      modifies this, repr
      ensures Valid() && fresh(repr - old(repr)) && written == old(written) + PackInteger(i)
    {
      Powers();
      hide Valid, LittleEndian;
      if i == 0 {
        assert LittleEndian(0, 0) == [] by { NoBytes(); }
        Push([Tag(NUMBER, ZERO)]);
      } else if !(-INT_LIMIT <= i < INT_LIMIT) {
        Push([Tag(NUMBER, QWORD)]);
        Push(LittleEndian(Wrap(i, 8), 8));
      } else if i < 0 {
        Push([Tag(NUMBER, DWORD)]);
        Push(LittleEndian(Wrap(i, 4), 4));
      } else if i < 0x100 {
        Push([Tag(NUMBER, BYTE)]);
        Push(LittleEndian(i, 1));
      } else if i < 0x1_0000 {
        Push([Tag(NUMBER, WORD)]);
        Push(LittleEndian(i, 2));
      } else {
        Push([Tag(NUMBER, DWORD)]);
        Push(LittleEndian(i, 4));
      }
    }

    method PushString(bytes: seq<Byte>)
      requires Valid()
      modifies this, repr
      ensures Valid() && fresh(repr - old(repr)) && written == old(written) + PackString(bytes)
    {
      hide Valid, LittleEndian, Truncate32;
      var n := Truncate32(|bytes|);
      if n < MAX_COOKIE {
        Push([Tag(SHORT_STRING, n % MAX_COOKIE)]);
        if n > 0 {
          Push(bytes[..n]);
        }
      } else {
        PushLong(if n < 0x1_0000 then 2 else 4, n, bytes[..n]);
      }
    }

    // Tag, length and bytes.
    method PushLong(width: nat, n: nat, bytes: seq<Byte>)
      requires Valid() && width < MAX_COOKIE
      modifies this, repr
      ensures Valid() && fresh(repr - old(repr))
      ensures written == old(written) + ([Tag(LONG_STRING, width)] + LittleEndian(n, width) + bytes)
    {
      hide Valid, LittleEndian, Tag;
      var head := [Tag(LONG_STRING, width)];
      Push(head);
      Push(LittleEndian(n, width));
      Push(bytes);
      assert written == old(written) + (head + LittleEndian(n, width) + bytes);
    }

    method PackOne(v: Value, depth: nat) returns (status: Status)
      requires Valid() && WellFormed(v)
      modifies this, repr
      ensures Valid() && fresh(repr - old(repr)) && Outcome(status, Pack(v, depth))
      decreases v, 2
    {
      if depth > MAX_DEPTH {
        Clear();
        return Failed(TooDeep);
      }
      status := Done;
      match v {
        case Nil => Push([Tag(NIL, 0)]);
        case Boolean(flag) => Push([Tag(BOOLEAN, if flag then 1 else 0)]);
        case Integer(i) => PushInteger(i);
        case Real(image) => Push([Tag(NUMBER, REAL)]); Push(image);
        case Pointer(image) => Push([Tag(USERDATA, 0)]); Push(image);
        case String(bytes) => PushString(bytes);
        case Table(_, _) => status := PushTable(v, depth);
        case Other => status := Failed(Unsupported);
      }
    }

    method PushTable(v: Value, depth: nat) returns (status: Status)
      requires Valid() && WellFormed(v) && v.Table? && depth <= MAX_DEPTH
      modifies this, repr
      ensures Valid() && fresh(repr - old(repr)) && Outcome(status, Pack(v, depth))
      decreases v, 1
    {
      hide Valid, Pack, PackItems, PackPairs, PackHead, Traversal, Outside, BothWellFormed;
      PairsBothWellFormed(v);
      ghost var items, pairs := PackItems(v.items, depth + 1), PackPairs(v.pairs, depth + 1);
      PackTableIs(v, depth, items, pairs);
      status := PushTableArray(v.items, depth + 1);
      if status.Failed? {
        return;
      }
      TraversalOutside(v);
      status := PushTableHash(v.pairs, Traversal(v), |v.items|, depth + 1);
    }

    method PushHead(n: nat)
      requires Valid() && n < INT_LIMIT
      modifies this, repr
      ensures Valid() && fresh(repr - old(repr)) && written == old(written) + PackHead(n)
    {
      hide Valid, PackInteger;
      if n >= MAX_COOKIE - 1 {
        Push([Tag(TABLE, MAX_COOKIE - 1)]);
        PushInteger(n);
      } else {
        Push([Tag(TABLE, n)]);
      }
    }

    method PushTableArray(items: seq<Value>, depth: nat) returns (status: Status)
      requires Valid() && |items| < INT_LIMIT
      requires forall i :: 0 <= i < |items| ==> WellFormed(items[i])
      modifies this, repr
      ensures Valid() && fresh(repr - old(repr))
      ensures Outcome(status, After(PackHead(|items|), PackItems(items, depth)))
      decreases items, 0
    {
      hide Valid, WellFormed, PackItems, PackHead;
      PushHead(|items|);
      ghost var head := PackHead(|items|);
      ghost var done, left := [], items;
      AfterNothing(PackItems(items, depth));
      var i := 0;
      while i < |items|
        invariant 0 <= i <= |items| && left == items[i..]
        invariant Valid() && fresh(repr - old(repr))
        invariant written == old(written) + head + done
        invariant PackItems(items, depth) == After(done, PackItems(left, depth))
        decreases |items| - i
      {
        assert left[0] == items[i] && left[1..] == items[i + 1..];
        NextItem(left, depth);
        status := PackOne(items[i], depth);
        if status.Failed? {
          return;
        }
        AfterMore(done, Pack(items[i], depth).value, PackItems(left[1..], depth));
        done, left := done + Pack(items[i], depth).value, left[1..];
        i := i + 1;
      }
      NextItem(left, depth);
      status := Done;
    }

    method PushPair(p: Pair, depth: nat) returns (status: Status)
      requires Valid() && BothWellFormed(p)
      modifies this, repr
      ensures Valid() && fresh(repr - old(repr)) && Outcome(status, PackPair(p, depth))
      decreases p, 0
    {
      hide Valid;
      status := PackOne(p.key, depth);
      if status.Done? {
        status := PackOne(p.value, depth);
      }
    }

    // `entries` is a traversal of the table; `pairs` names its entries outside the array part.
    method PushTableHash(ghost pairs: seq<Pair>, entries: seq<Pair>, n: nat, depth: nat)
      returns (status: Status)
      requires Valid() && Outside(entries, n) == pairs
      requires forall i :: 0 <= i < |pairs| ==> BothWellFormed(pairs[i])
      modifies this, repr
      ensures Valid() && fresh(repr - old(repr))
      ensures Outcome(status, Closed(PackPairs(pairs, depth)))
      decreases pairs, 0
    {
      hide Valid, BothWellFormed, PackPair, PackPairs, InArray, Outside;
      ghost var done, left, todo := [], pairs, entries;
      AfterNothing(PackPairs(pairs, depth));
      var i := 0;
      while i < |entries|
        invariant 0 <= i <= |entries| && todo == entries[i..]
        invariant Valid() && fresh(repr - old(repr))
        invariant left == Outside(todo, n)
        invariant |left| <= |pairs| && left == pairs[|pairs| - |left|..]
        invariant written == old(written) + done
        invariant PackPairs(pairs, depth) == After(done, PackPairs(left, depth))
        decreases |entries| - i
      {
        assert todo[0] == entries[i] && todo[1..] == entries[i + 1..];
        OutsideNext(todo, n);
        if !InArray(entries[i].key, n) {
          assert entries[i] == left[0] == pairs[|pairs| - |left|];
          NextPair(left, depth);
          status := PushPair(entries[i], depth);
          if status.Failed? {
            return;
          }
          AfterMore(done, PackPair(left[0], depth).value, PackPairs(left[1..], depth));
          done, left := done + PackPair(left[0], depth).value, left[1..];
        }
        todo := todo[1..];
        i := i + 1;
      }
      OutsideNext(todo, n);
      NextPair(left, depth);
      Push([Tag(NIL, 0)]);
      status := Done;
    }
  }

  lemma NextRead(n: int, s: seq<Byte>)
    ensures ReadItems(n, s) ==
      if n <= 0 then Ok(Parsed([], s))
      else match ReadOne(s)
        case Ok(v) => Behind([v.value], ReadItems(n - 1, v.rest))
        case Err(e) => Err(e)
  {
  }

  lemma NextPairRead(t: Value, s: seq<Byte>)
    requires t.Table?
    ensures ReadOne(s).Err? ==> ReadPairs(t, s) == Err(ReadOne(s).error)
    ensures ReadOne(s).Ok? && ReadOne(s).value.value == Nil ==>
      ReadPairs(t, s) == Ok(Parsed(t, ReadOne(s).value.rest))
    ensures ReadOne(s).Ok? && ReadOne(s).value.value != Nil ==>
      var k, v := ReadOne(s).value, ReadOne(ReadOne(s).value.rest);
      ReadPairs(t, s) == if v.Err? then Err(v.error)
                         else ReadPairs(RawSet(t, k.value, v.value.value), v.value.rest)
  {
  }

  // `done` in front of the values of a read.
  ghost function Behind(done: seq<Value>, r: Result<Parsed<seq<Value>>, Error>)
    : Result<Parsed<seq<Value>>, Error>
  {
    if r.Ok? then Ok(Parsed(done + r.value.value, r.value.rest)) else r
  }

  lemma BehindMore(done: seq<Value>, v: Value, r: Result<Parsed<seq<Value>>, Error>)
    ensures Behind(done, Behind([v], r)) == Behind(done + [v], r)
    ensures Behind([], r) == r
  {
    assert r.Ok? ==> done + ([v] + r.value.value) == done + [v] + r.value.value;
    assert r.Ok? ==> [] + r.value.value == r.value.value;
  }

  class ReadBlock {
    const buffer: seq<Byte>
    var len: int
    var ptr: int

    // While nothing has failed.
    ghost predicate Valid()
      reads this
    {
      0 <= ptr && 0 <= len && ptr + len == |buffer|
    }

    ghost function Rest(): (s: seq<Byte>)
      requires Valid()
      reads this
      ensures |s| == len
    {
      buffer[ptr..]
    }

    constructor (buffer: seq<Byte>)
      ensures Valid() && Rest() == buffer
    {
      this.buffer, len, ptr := buffer, |buffer|, 0;
    }

    // The value read and the bytes left agree with what the format says.
    ghost predicate Outcome<T>(r: Result<T, Error>, expected: Result<Parsed<T>, Error>)
      reads this
    {
      match expected
      case Ok(p) => Valid() && r == Ok(p.value) && Rest() == p.rest
      case Err(e) => r == Err(e)
    }

    // A negative size is not refused: the cursor moves back, and no bytes are meant.
    method Read(n: int) returns (r: Result<seq<Byte>, Error>)
      requires Valid()
      modifies this
      ensures n < 0 ==> r == Ok([]) && ptr == old(ptr) + n && len == old(len) - n
      ensures 0 <= n ==> Valid() && Outcome(r, ReadBytes(n, old(Rest())))
      ensures r.Err? ==> Valid() && Rest() == old(Rest())
      ensures 0 <= n && r.Ok? ==> |r.value| == n && old(Rest()) == r.value + Rest()
    {
      if len < n {
        return Err(InvalidStream);
      }
      r := Ok(if n < 0 then [] else buffer[ptr..ptr + n]);
      ptr := ptr + n;
      len := len - n;
      assert 0 <= n ==> old(Rest())[..n] == r.value && old(Rest())[n..] == Rest();
    }

    method ReadInteger(cookie: nat) returns (r: Result<int, Error>)
      requires Valid()
      modifies this
      ensures Valid() && Outcome(r, ReadInt(cookie, old(Rest()))) && len <= old(len)
    {
      if cookie == ZERO {
        assert old(Rest())[..0] == [] && old(Rest())[0..] == old(Rest());
        return Ok(0);
      }
      if cookie !in {BYTE, WORD, DWORD, QWORD} {
        return Err(InvalidStream);
      }
      var bytes := Read(Width(cookie));
      if bytes.Err? {
        return Err(InvalidStream);
      }
      var n := FromLittleEndian(bytes.value);
      r := Ok(if cookie == DWORD || cookie == QWORD then Signed(n, Width(cookie)) else n);
    }

    // A string of a negative length, which as a size is beyond what Lua allows, is refused
    // after the read.
    method ReadBuffer(n: int) returns (r: Result<Value, Error>)
      requires Valid()
      modifies this
      ensures n < 0 ==> r == Err(BadLength)
      ensures 0 <= n ==>
                match ReadBytes(n, old(Rest()))
                case Ok(p) => Valid() && r == Ok(String(p.value)) && Rest() == p.rest
                case Err(e) => r == Err(e)
    {
      var bytes := Read(n);
      if bytes.Err? {
        return Err(bytes.error);
      }
      if n < 0 {
        return Err(BadLength);
      }
      return Ok(String(bytes.value));
    }

    method ReadLongString(cookie: nat) returns (r: Result<Value, Error>)
      requires Valid()
      modifies this
      ensures Outcome(r, ReadString(cookie, old(Rest()))) && (r.Ok? ==> len <= old(len))
    {
      if cookie != 2 && cookie != 4 {
        return Err(InvalidStream);
      }
      var length := Read(cookie);
      if length.Err? {
        return Err(length.error);
      }
      r := ReadBuffer(Truncate32(FromLittleEndian(length.value)));
    }

    method UnpackOne() returns (r: Result<Value, Error>)
      requires Valid()
      modifies this
      ensures Outcome(r, ReadOne(old(Rest()))) && (r.Ok? ==> len < old(len))
      decreases len, 0
    {
      ghost var s := Rest();
      var tag := Read(1);
      if tag.Err? {
        return Err(tag.error);
      }
      assert s[0] == tag.value[0] && s[1..] == Rest();
      r := PushValue(tag.value[0] % 8, tag.value[0] / 8);
    }

    method PushValue(kind: nat, cookie: nat) returns (r: Result<Value, Error>)
      requires Valid() && cookie < MAX_COOKIE
      modifies this
      ensures Outcome(r, ReadValue(kind, cookie, old(Rest()))) && (r.Ok? ==> len <= old(len))
      decreases len, 4
    {
      match kind {
        case 0 => r := Ok(Nil);
        case 1 => r := Ok(Boolean(cookie != 0));
        case 2 =>
          if cookie == REAL {
            var image := Read(8);
            r := if image.Ok? then Ok(Real(image.value)) else Err(image.error);
          } else {
            var i := ReadInteger(cookie);
            r := if i.Ok? then Ok(Integer(i.value)) else Err(i.error);
          }
        case 3 =>
          var image := Read(8);
          r := if image.Ok? then Ok(Pointer(image.value)) else Err(image.error);
        case 4 => r := ReadBuffer(cookie);
        case 5 => r := ReadLongString(cookie);
        case 6 => r := ReadTable(cookie);
        case _ => r := Err(InvalidStream);
      }
    }

    method ReadTable(cookie: nat) returns (r: Result<Value, Error>)
      requires Valid() && cookie < MAX_COOKIE
      modifies this
      ensures Outcome(r, LuaFormat.ReadTable(cookie, old(Rest()))) && (r.Ok? ==> len <= old(len))
      decreases len, 3
    {
      var arraySize: int := cookie;
      if cookie == MAX_COOKIE - 1 {
        ghost var s := Rest();
        var tag := Read(1);
        if tag.Err? {
          return Err(tag.error);
        }
        assert s[0] == tag.value[0] && s[1..] == Rest();
        if tag.value[0] % 8 != TABLE || tag.value[0] / 8 == REAL {
          return Err(InvalidStream);
        }
        var n := ReadInteger(tag.value[0] / 8);
        if n.Err? {
          return Err(n.error);
        }
        arraySize := Truncate32(n.value);
      }
      r := ReadEntries(arraySize);
    }

    // The two loops that fill a new table: the array items, then pairs up to a nil key.
    method ReadEntries(n: int) returns (r: Result<Value, Error>)
      requires Valid()
      modifies this
      ensures Outcome(r, ReadBody(n, old(Rest()))) && (r.Ok? ==> len <= old(len))
      decreases len, 2
    {
      hide ReadItems, ReadPairs, ReadOne, RawSet;
      ghost var s := Rest();
      var items := [];
      var i := 0;
      BehindMore([], Nil, ReadItems(n, s));
      while i < n
        invariant Valid() && len <= old(len) && 0 <= i && (n >= 0 ==> i <= n)
        invariant ReadItems(n, s) == Behind(items, ReadItems(n - i, Rest()))
        decreases n - i
      {
        NextRead(n - i, Rest());
        var v := UnpackOne();
        if v.Err? {
          return v;
        }
        BehindMore(items, v.value, ReadItems(n - i - 1, Rest()));
        items := items + [v.value];
        i := i + 1;
      }
      NextRead(n - i, Rest());
      assert items + [] == items;
      ghost var from := Rest();
      var t := Table(items, []);
      while true
        invariant Valid() && len <= old(len) && t.Table?
        invariant ReadPairs(Table(items, []), from) == ReadPairs(t, Rest())
        decreases len
      {
        NextPairRead(t, Rest());
        var k := UnpackOne();
        if k.Err? {
          return k;
        }
        if k.value == Nil {
          return Ok(t);
        }
        var v := UnpackOne();
        if v.Err? {
          return v;
        }
        t := RawSet(t, k.value, v.value);
      }
    }
  }

  method LuaSeriPack(vs: seq<Value>) returns (r: Result<seq<Byte>, Error>)
    requires forall i :: 0 <= i < |vs| ==> WellFormed(vs[i])
    ensures r == PackAll(vs)
  {
    var w := new WriteBlock();
    ghost var done, left := [], vs;
    AfterNothing(PackItems(vs, 0));
    for i := 0 to |vs|
      invariant left == vs[i..] && w.Valid() && fresh(w) && fresh(w.repr) && w.written == done
      invariant PackItems(vs, 0) == After(done, PackItems(left, 0))
    {
      assert left[0] == vs[i] && left[1..] == vs[i + 1..];
      NextItem(left, 0);
      var status := w.PackOne(vs[i], 0);
      if status.Failed? {
        return Err(status.error);
      }
      AfterMore(done, Pack(vs[i], 0).value, PackItems(left[1..], 0));
      done, left := done + Pack(vs[i], 0).value, left[1..];
    }
    NextItem(left, 0);
    assert done + [] == done;
    var buffer := w.Serialize();
    r := Ok(buffer);
  }

  method LuaSeriUnpack(buffer: seq<Byte>) returns (r: Result<seq<Value>, Error>)
    ensures r == UnpackAll(buffer)
  {
    var b := new ReadBlock(buffer);
    var vs := [];
    AfterNothing(UnpackAll(buffer));
    while b.len > 0
      invariant b.Valid() && fresh(b)
      invariant UnpackAll(buffer) == After(vs, UnpackAll(b.Rest()))
      decreases b.len
    {
      var v := b.UnpackOne();
      if v.Err? {
        return Err(v.error);
      }
      AfterMore(vs, [v.value], UnpackAll(b.Rest()));
      vs := vs + [v.value];
    }
    assert vs + [] == vs;
    r := Ok(vs);
  }
}
