/** The typed codec of `octetsstream` on values: what `push` writes and what `pop` reads,
    for every nesting of integers, pods, byte strings, pairs and containers. */
module Marshal {
  import opened CompactInt
  import opened Machine
  import opened Options

  /** How a container takes one more element. */
  datatype Mode = AtEnd | UniqueItems | UniqueKeys

  datatype Ty =
    | TInt(width: nat, signed: bool)   // integers of more than one byte
    | TPod(size: nat)                  // any other pod, as the bytes it has in memory
    | TOctets
    | TPodVec(unit: nat)               // a vector or string of pods of `unit` bytes
    | TPair(first: Ty, second: Ty)
    | TSeq(mode: Mode, elem: Ty)       // list, set and map; the elements of a map are pairs

  datatype Val = VInt(n: int) | VBytes(bytes: Bytes) | VPair(first: Val, second: Val) | VSeq(items: seq<Val>) {
    function Raw(): Bytes { if VBytes? then bytes else [] }
    function Fst(): Val { if VPair? then first else this }
    function Snd(): Val { if VPair? then second else this }
    function Items(): seq<Val> { if VSeq? then items else [] }
  }

  // ---------------------------------------------------------------------------
  // Values of a type
  // ---------------------------------------------------------------------------

  predicate IntFits(n: int, width: nat, signed: bool) {
    width in {16, 32, 64} && if signed then Signed(n, width) else 0 <= n < Pow2(width)
  }

  function Key(mode: Mode, x: Val): Val {
    if mode.UniqueKeys? then x.Fst() else x
  }

  ghost predicate KeysDiffer(mode: Mode, items: seq<Val>) {
    mode.AtEnd? || forall i, j :: 0 <= i < j < |items| ==> Key(mode, items[i]) != Key(mode, items[j])
  }

  ghost predicate HasType(v: Val, ty: Ty)
    decreases ty
  {
    match ty
    case TInt(width, signed) => v.VInt? && IntFits(v.n, width, signed)
    case TPod(size) => v.VBytes? && |v.bytes| == size
    case TOctets => v.VBytes? && |v.bytes| < UINT64_WRAP
    case TPodVec(unit) => v.VBytes? && 0 < unit && |v.bytes| % unit == 0 && |v.bytes| < UINT64_WRAP
    case TPair(a, b) => v.VPair? && HasType(v.first, a) && HasType(v.second, b)
    case TSeq(mode, elem) =>
      && v.VSeq? && |v.items| < UINT64_WRAP && KeysDiffer(mode, v.items)
      && forall i :: 0 <= i < |v.items| ==> HasType(v.items[i], elem)
  }

  /** A default-constructed variable of the type. */
  function Empty(ty: Ty): Val {
    match ty
    case TInt(_, _) => VInt(0)
    case TPod(size) => VBytes(seq(size, _ => 0))
    case TOctets => VBytes([])
    case TPodVec(_) => VBytes([])
    case TPair(a, b) => VPair(Empty(a), Empty(b))
    case TSeq(_, _) => VSeq([])
  }

  // ---------------------------------------------------------------------------
  // push
  // ---------------------------------------------------------------------------

  function Reverse(s: Bytes): (r: Bytes)
    ensures |r| == |s| && forall i :: 0 <= i < |s| ==> r[i] == s[|s| - 1 - i]
  {
    if s == [] then [] else Reverse(s[1..]) + [s[0]]
  }

  function EncodeInt(n: int, width: nat, signed: bool): Bytes
    requires IntFits(n, width, signed)
  {
    if signed then Varint(EncodeZigzag(n, width)) else Varint(n)
  }

  function Encode(v: Val, ty: Ty): Bytes
    requires HasType(v, ty)
    decreases ty, 0
  {
    match ty
    case TInt(width, signed) => EncodeInt(v.n, width, signed)
    case TPod(_) => Reverse(v.bytes)
    case TOctets => Varint(|v.bytes|) + v.bytes
    case TPodVec(unit) => Varint(|v.bytes| / unit) + v.bytes
    case TPair(a, b) => Encode(v.first, a) + Encode(v.second, b)
    case TSeq(_, elem) => Varint(|v.items|) + EncodeItems(v.items, elem)
  }

  function EncodeItems(items: seq<Val>, elem: Ty): Bytes
    requires forall i :: 0 <= i < |items| ==> HasType(items[i], elem)
    decreases elem, |items|
  {
    if items == [] then [] else Encode(items[0], elem) + EncodeItems(items[1..], elem)
  }

  // ---------------------------------------------------------------------------
  // pop
  // ---------------------------------------------------------------------------

  datatype Decoded = Decoded(value: Val, rest: Bytes)

  /** The cast of the 64-bit value that was read to the type of the variable. */
  function Narrow(u: nat, width: nat, signed: bool): int {
    if signed && 0 < width then DecodeZigzag(u % Pow2(width), width) else u % Pow2(width)
  }

  function Insert(mode: Mode, items: seq<Val>, x: Val): seq<Val> {
    if !mode.AtEnd? && exists i :: 0 <= i < |items| && Key(mode, items[i]) == Key(mode, x) then items
    else items + [x]
  }

  /** `pop` of a variable that holds `into`, from the unread bytes `s`; None if it throws. */
  function Decode(ty: Ty, into: Val, s: Bytes): Option<Decoded>
    decreases ty, 0
  {
    match ty
    case TInt(width, signed) =>
      (match Read(s)
       case None => None
       case Some(p) => Some(Decoded(VInt(Narrow(p.value, width, signed)), p.rest)))
    case TPod(size) =>
      if |s| < size then None else Some(Decoded(VBytes(Reverse(s[..size])), s[size..]))
    case TOctets =>
      (match Read(s)
       case None => None
       case Some(p) => TakeRaw(into.Raw(), p.value, p.rest))
    case TPodVec(unit) =>
      (match Read(s)
       case None => None
       case Some(p) => TakeRaw([], p.value * unit, p.rest))
    case TPair(a, b) =>
      (match Decode(a, into.Fst(), s)
       case None => None
       case Some(x) => DecodeSecond(b, into.Snd(), x))
    case TSeq(mode, elem) =>
      (match Read(s)
       case None => None
       case Some(p) => DecodeItems(elem, mode, p.value, into.Items(), p.rest))
  }

  function TakeRaw(before: Bytes, n: nat, s: Bytes): Option<Decoded> {
    if |s| < n then None else Some(Decoded(VBytes(before + s[..n]), s[n..]))
  }

  function DecodeSecond(b: Ty, into: Val, x: Decoded): Option<Decoded>
    decreases b, 1
  {
    match Decode(b, into, x.rest)
    case None => None
    case Some(y) => Some(Decoded(VPair(x.value, y.value), y.rest))
  }

  /** `n` more elements, each popped into a new variable and then inserted. */
  function DecodeItems(elem: Ty, mode: Mode, n: nat, items: seq<Val>, s: Bytes): Option<Decoded>
    decreases elem, n + 1
  {
    if n == 0 then Some(Decoded(VSeq(items), s))
    else
      match Decode(elem, Empty(elem), s)
      case None => None
      case Some(x) => DecodeItems(elem, mode, n - 1, Insert(mode, items, x.value), x.rest)
  }

  // ---------------------------------------------------------------------------
  // Round trip
  // ---------------------------------------------------------------------------

  function InsertAll(mode: Mode, items: seq<Val>, more: seq<Val>): seq<Val>
    decreases |more|
  {
    if more == [] then items else InsertAll(mode, Insert(mode, items, more[0]), more[1..])
  }

  /** What a variable that held `into` holds after `v` was popped into it: numbers, pods and
      pod vectors are replaced, byte strings and lists grow, sets and maps keep what they had. */
  function Merge(ty: Ty, into: Val, v: Val): Val {
    match ty
    case TInt(_, _) => v
    case TPod(_) => v
    case TOctets => VBytes(into.Raw() + v.Raw())
    case TPodVec(_) => v
    case TPair(a, b) => VPair(Merge(a, into.Fst(), v.Fst()), Merge(b, into.Snd(), v.Snd()))
    case TSeq(mode, _) => VSeq(InsertAll(mode, into.Items(), v.Items()))
  }

  lemma {:induction false} InsertNew(mode: Mode, items: seq<Val>, more: seq<Val>)
    requires KeysDiffer(mode, items + more)
    ensures InsertAll(mode, items, more) == items + more
    decreases |more|
  {
    if more == [] {
      assert items + more == items;
    } else {
      var x := more[0];
      assert (items + more)[|items|] == x;
      forall i | 0 <= i < |items|
        ensures !mode.AtEnd? ==> Key(mode, items[i]) != Key(mode, x)
      {
        assert (items + more)[i] == items[i];
      }
      assert Insert(mode, items, x) == items + [x];
      assert items + more == (items + [x]) + more[1..];
      InsertNew(mode, items + [x], more[1..]);
    }
  }

  /** Popped into a new variable, a value comes out as it was. */
  lemma {:induction false} MergeEmpty(ty: Ty, v: Val)
    requires HasType(v, ty)
    ensures Merge(ty, Empty(ty), v) == v
    decreases ty
  {
    match ty
    case TPair(a, b) =>
      MergeEmpty(a, v.first);
      MergeEmpty(b, v.second);
    case TSeq(mode, elem) =>
      assert [] + v.items == v.items;
      InsertNew(mode, [], v.items);
    case _ =>
  }

  lemma NarrowEncoded(n: int, width: nat, signed: bool, rest: Bytes)
    requires IntFits(n, width, signed)
    ensures exists u: nat ::
      Read(EncodeInt(n, width, signed) + rest) == Some(Parsed(u, rest)) && Narrow(u, width, signed) == n
  {
    Pow2Is64();
    if width < 64 { Pow2Rises(width, 64); }
    if signed {
      ZigzagRoundTrip(n, width);
      SmallRemainder(EncodeZigzag(n, width), Pow2(width));
      VarintRoundTrip(EncodeZigzag(n, width), rest);
    } else {
      SmallRemainder(n, Pow2(width));
      VarintRoundTrip(n, rest);
    }
  }

  lemma SmallRemainder(n: nat, m: nat)
    requires n < m
    ensures n % m == n
  {
  }

  lemma ReverseTwice(s: Bytes)
    ensures Reverse(Reverse(s)) == s
  {
  }

  lemma TakeWritten(before: Bytes, bytes: Bytes, rest: Bytes)
    ensures TakeRaw(before, |bytes|, bytes + rest) == Some(Decoded(VBytes(before + bytes), rest))
  {
    assert (bytes + rest)[..|bytes|] == bytes && (bytes + rest)[|bytes|..] == rest;
  }

  /** The main result: what was pushed is popped, of whatever type, into any variable, and
      the bytes behind it stay unread. */
  lemma {:induction false} PopAfterPush(ty: Ty, into: Val, v: Val, rest: Bytes)
    requires HasType(v, ty)
    ensures Decode(ty, into, Encode(v, ty) + rest) == Some(Decoded(Merge(ty, into, v), rest))
    decreases ty, 0
  {
    match ty
    case TInt(width, signed) => NarrowEncoded(v.n, width, signed, rest);
    case TPod(size) =>
      assert (Reverse(v.bytes) + rest)[..size] == Reverse(v.bytes) && (Reverse(v.bytes) + rest)[size..] == rest;
      ReverseTwice(v.bytes);
    case TOctets =>
      assert Encode(v, ty) + rest == Varint(|v.bytes|) + (v.bytes + rest);
      VarintRoundTrip(|v.bytes|, v.bytes + rest);
      TakeWritten(into.Raw(), v.bytes, rest);
    case TPodVec(unit) => PodVecRoundTrip(unit, v, rest, into);
    case TPair(a, b) =>
      var x, y := Encode(v.first, a), Encode(v.second, b);
      assert Encode(v, ty) + rest == x + (y + rest);
      PopAfterPush(a, into.Fst(), v.first, y + rest);
      PopAfterPush(b, into.Snd(), v.second, rest);
    case TSeq(mode, elem) =>
      assert Encode(v, ty) + rest == Varint(|v.items|) + (EncodeItems(v.items, elem) + rest);
      VarintRoundTrip(|v.items|, EncodeItems(v.items, elem) + rest);
      PopItems(elem, mode, into.Items(), v.items, rest);
  }

  lemma PodVecRoundTrip(unit: nat, v: Val, rest: Bytes, into: Val)
    requires HasType(v, TPodVec(unit))
    ensures Decode(TPodVec(unit), into, Encode(v, TPodVec(unit)) + rest) == Some(Decoded(v, rest))
  {
    var n := |v.bytes| / unit;
    assert n * unit == |v.bytes|;
    assert n <= |v.bytes|;
    assert Encode(v, TPodVec(unit)) + rest == Varint(n) + (v.bytes + rest);
    VarintRoundTrip(n, v.bytes + rest);
    TakeWritten([], v.bytes, rest);
    assert [] + v.bytes == v.bytes;
  }

  lemma {:induction false} PopItems(elem: Ty, mode: Mode, items: seq<Val>, more: seq<Val>, rest: Bytes)
    requires forall i :: 0 <= i < |more| ==> HasType(more[i], elem)
    ensures DecodeItems(elem, mode, |more|, items, EncodeItems(more, elem) + rest)
      == Some(Decoded(VSeq(InsertAll(mode, items, more)), rest))
    decreases elem, |more| + 1
  {
    if more == [] {
      assert EncodeItems(more, elem) + rest == rest;
    } else {
      var x, tail := Encode(more[0], elem), EncodeItems(more[1..], elem);
      assert EncodeItems(more, elem) + rest == x + (tail + rest);
      PopAfterPush(elem, Empty(elem), more[0], tail + rest);
      MergeEmpty(elem, more[0]);
      PopItems(elem, mode, Insert(mode, items, more[0]), more[1..], rest);
    }
  }

  lemma RoundTrip(ty: Ty, v: Val, rest: Bytes)
    requires HasType(v, ty)
    ensures Decode(ty, Empty(ty), Encode(v, ty) + rest) == Some(Decoded(v, rest))
  {
    PopAfterPush(ty, Empty(ty), v, rest);
    MergeEmpty(ty, v);
  }

  /** No encoding of a type is a prefix of another. */
  lemma PrefixFree(ty: Ty, v: Val, w: Val, rest: Bytes, rest': Bytes)
    requires HasType(v, ty) && HasType(w, ty)
    requires Encode(v, ty) + rest == Encode(w, ty) + rest'
    ensures v == w && rest == rest'
  {
    RoundTrip(ty, v, rest);
    RoundTrip(ty, w, rest');
  }

  // ---------------------------------------------------------------------------
  // Into a container that has elements already
  // ---------------------------------------------------------------------------

  datatype Elements = Elements(items: seq<Val>, rest: Bytes)

  /** The next `n` elements, each popped into a new variable; None if one cannot be popped. */
  function ReadElements(elem: Ty, n: nat, s: Bytes): Option<Elements>
    decreases n
  {
    if n == 0 then Some(Elements([], s))
    else
      match Decode(elem, Empty(elem), s)
      case None => None
      case Some(x) =>
        match ReadElements(elem, n - 1, x.rest)
        case None => None
        case Some(e) => Some(Elements([x.value] + e.items, e.rest))
  }

  ghost predicate HasKey(mode: Mode, items: seq<Val>, key: Val) {
    exists i :: 0 <= i < |items| && Key(mode, items[i]) == key
  }

  /** Element `j` is the first with its key, and the key is not there already. */
  ghost predicate IsNew(mode: Mode, items: seq<Val>, more: seq<Val>, j: nat)
    requires j < |more|
  {
    !HasKey(mode, items, Key(mode, more[j])) && !HasKey(mode, more[..j], Key(mode, more[j]))
  }

  ghost predicate CameIn(mode: Mode, items: seq<Val>, more: seq<Val>, x: Val) {
    exists j :: 0 <= j < |more| && more[j] == x && IsNew(mode, items, more, j)
  }

  /** `r` is the container `items` after `more` went in.  A list has all of them at its end.
      A set or map keeps what it had; each key that it did not have comes in once, with the
      first element of that key; and it has every key in the end. */
  ghost predicate Took(mode: Mode, items: seq<Val>, more: seq<Val>, r: seq<Val>) {
    if mode.AtEnd? then r == items + more
    else
      && items <= r
      && (forall i :: |items| <= i < |r| ==> CameIn(mode, items, more, r[i]))
      && (forall j :: 0 <= j < |more| ==> HasKey(mode, r, Key(mode, more[j])))
      && (KeysDiffer(mode, items) ==> KeysDiffer(mode, r))
  }

  lemma KeyStays(mode: Mode, items: seq<Val>, r: seq<Val>, key: Val)
    requires items <= r && HasKey(mode, items, key)
    ensures HasKey(mode, r, key)
  {
    var i :| 0 <= i < |items| && Key(mode, items[i]) == key;
    assert r[i] == items[i];
  }

  /** An element of the tail that is new to the container with the first element in is new. */
  lemma StillNew(mode: Mode, items: seq<Val>, more: seq<Val>, with: seq<Val>, j: nat)
    requires more != [] && j < |more| - 1 && items <= with && HasKey(mode, with, Key(mode, more[0]))
    requires IsNew(mode, with, more[1..], j)
    ensures IsNew(mode, items, more, j + 1)
  {
    var key := Key(mode, more[j + 1]);
    assert more[1..][j] == more[j + 1];
    if HasKey(mode, items, key) {
      KeyStays(mode, items, with, key);
    }
    var before := more[..j + 1];
    assert before == [more[0]] + more[1..][..j];
    forall i | 0 <= i < |before|
      ensures Key(mode, before[i]) != key
    {
      if i > 0 {
        assert more[1..][..j][i - 1] == before[i];
      }
    }
  }

  lemma {:induction false} InsertAllAtEnd(items: seq<Val>, more: seq<Val>)
    ensures InsertAll(AtEnd, items, more) == items + more
    decreases |more|
  {
    if more == [] {
      assert items + more == items;
    } else {
      InsertAllAtEnd(items + [more[0]], more[1..]);
      assert items + [more[0]] + more[1..] == items + more;
    }
  }

  /** One element: it comes in if its key is not there yet. */
  lemma TookOne(mode: Mode, items: seq<Val>, x: Val)
    requires !mode.AtEnd?
    ensures var with := Insert(mode, items, x);
      && items <= with && HasKey(mode, with, Key(mode, x))
      && (with == items || (with == items + [x] && !HasKey(mode, items, Key(mode, x))))
      && (KeysDiffer(mode, items) ==> KeysDiffer(mode, with))
  {
    var with := Insert(mode, items, x);
    if with == items + [x] {
      assert with[|items|] == x;
    }
  }

  lemma {:induction false} InsertAllTook(mode: Mode, items: seq<Val>, more: seq<Val>)
    ensures Took(mode, items, more, InsertAll(mode, items, more))
    decreases |more|
  {
    if mode.AtEnd? {
      InsertAllAtEnd(items, more);
    } else if more != [] {
      var with, r := Insert(mode, items, more[0]), InsertAll(mode, items, more);
      TookOne(mode, items, more[0]);
      InsertAllTook(mode, with, more[1..]);
      TookFirst(mode, items, more, with, r);
    }
  }

  lemma TookFirst(mode: Mode, items: seq<Val>, more: seq<Val>, with: seq<Val>, r: seq<Val>)
    requires !mode.AtEnd? && more != [] && Took(mode, with, more[1..], r)
    requires items <= with && HasKey(mode, with, Key(mode, more[0]))
    requires with == items || (with == items + [more[0]] && !HasKey(mode, items, Key(mode, more[0])))
    requires KeysDiffer(mode, items) ==> KeysDiffer(mode, with)
    ensures Took(mode, items, more, r)
  {
    forall i | |items| <= i < |r|
      ensures CameIn(mode, items, more, r[i])
    {
      if i < |with| {
        assert r[i] == with[i] == more[0] && IsNew(mode, items, more, 0);
      } else {
        assert CameIn(mode, with, more[1..], r[i]);
        var j :| 0 <= j < |more[1..]| && more[1..][j] == r[i] && IsNew(mode, with, more[1..], j);
        StillNew(mode, items, more, with, j);
        assert more[j + 1] == r[i];
      }
    }
    forall j | 0 <= j < |more|
      ensures HasKey(mode, r, Key(mode, more[j]))
    {
      if j == 0 {
        KeyStays(mode, with, r, Key(mode, more[0]));
      } else {
        assert more[1..][j - 1] == more[j];
      }
    }
    assert items <= with <= r;
    assert KeysDiffer(mode, items) ==> KeysDiffer(mode, r);
  }

  lemma {:induction false} DecodeItemsInserts(elem: Ty, mode: Mode, n: nat, items: seq<Val>, s: Bytes)
    ensures var e := ReadElements(elem, n, s);
      DecodeItems(elem, mode, n, items, s) ==
        if e.None? then None else Some(Decoded(VSeq(InsertAll(mode, items, e.value.items)), e.value.rest))
    decreases n
  {
    if n > 0 {
      match Decode(elem, Empty(elem), s)
      case None =>
      case Some(x) =>
        DecodeItemsInserts(elem, mode, n - 1, Insert(mode, items, x.value), x.rest);
        var e := ReadElements(elem, n - 1, x.rest);
        if e.Some? {
          assert ([x.value] + e.value.items)[1..] == e.value.items;
        }
    }
  }

  /** The elements that follow went into the container `into`, which is now `r`. */
  ghost predicate ItemsTaken(elem: Ty, mode: Mode, n: nat, into: seq<Val>, s: Bytes, r: Val, rest: Bytes) {
    var e := ReadElements(elem, n, s);
    e.Some? && r.VSeq? && rest == e.value.rest && Took(mode, into, e.value.items, r.items)
  }

  lemma ItemsAreTaken(elem: Ty, mode: Mode, n: nat, into: seq<Val>, s: Bytes, r: Val, rest: Bytes)
    requires DecodeItems(elem, mode, n, into, s) == Some(Decoded(r, rest))
    ensures ItemsTaken(elem, mode, n, into, s, r, rest)
  {
    DecodeItemsInserts(elem, mode, n, into, s);
    InsertAllTook(mode, into, ReadElements(elem, n, s).value.items);
  }

  /** From any bytes, and into any container: a list grows by the elements that were read, a
      set or map keeps what it had and takes each new key once, with the first element of
      that key, wherever the key is repeated; and it throws exactly if an element is cut. */
  lemma PopIntoContainer(elem: Ty, mode: Mode, into: Val, s: Bytes)
    ensures var p := Read(s); var r := Decode(TSeq(mode, elem), into, s);
      if p.None? || ReadElements(elem, p.value.value, p.value.rest).None? then r == None
      else r.Some? && ItemsTaken(elem, mode, p.value.value, into.Items(), p.value.rest, r.value.value, r.value.rest)
  {
    if Read(s).Some? {
      var p := Read(s).value;
      DecodeItemsInserts(elem, mode, p.value, into.Items(), p.rest);
      var e := ReadElements(elem, p.value, p.rest);
      if e.Some? {
        InsertAllTook(mode, into.Items(), e.value.items);
      }
    }
  }

  /** The same for what was pushed: `Merge` keeps what a container had. */
  lemma MergeTook(mode: Mode, elem: Ty, into: Val, v: Val)
    requires HasType(v, TSeq(mode, elem))
    ensures var m := Merge(TSeq(mode, elem), into, v); m.VSeq? && Took(mode, into.Items(), v.items, m.items)
  {
    InsertAllTook(mode, into.Items(), v.items);
  }

  /** Whatever 64-bit number was read, the variable gets a number of its type, which would be
      written as the lower bits of what was read. */
  lemma PoppedIntFits(u: nat, width: nat, signed: bool)
    requires width in {16, 32, 64}
    ensures var n := Narrow(u, width, signed);
      IntFits(n, width, signed) && (if signed then EncodeZigzag(n, width) else n) == u % Pow2(width)
  {
    if signed {
      ZigzagBack(u % Pow2(width), width);
    }
  }

  // ---------------------------------------------------------------------------
  // Truncated input
  // ---------------------------------------------------------------------------

  ghost predicate Unaffected(before: Option<Decoded>, after: Option<Decoded>, more: Bytes) {
    before.Some? ==> after == Some(Decoded(before.value.value, before.value.rest + more))
  }

  lemma TakeMore(before: Bytes, n: nat, s: Bytes, more: Bytes)
    ensures Unaffected(TakeRaw(before, n, s), TakeRaw(before, n, s + more), more)
  {
    if n <= |s| {
      assert (s + more)[..n] == s[..n] && (s + more)[n..] == s[n..] + more;
    }
  }

  /** What was popped does not depend on the bytes behind it. */
  lemma {:induction false} DecodeMore(ty: Ty, into: Val, s: Bytes, more: Bytes)
    ensures Unaffected(Decode(ty, into, s), Decode(ty, into, s + more), more)
    decreases ty, 0
  {
    if (ty.TInt? || ty.TOctets? || ty.TPodVec? || ty.TSeq?) && Read(s).Some? {
      var p := Read(s).value;
      ReadBitsMore(s, more, 0, 0);
      if ty.TOctets? {
        TakeMore(into.Raw(), p.value, p.rest, more);
      } else if ty.TPodVec? {
        TakeMore([], p.value * ty.unit, p.rest, more);
      } else if ty.TSeq? {
        DecodeItemsMore(ty.elem, ty.mode, p.value, into.Items(), p.rest, more);
      }
    } else if ty.TPod? && ty.size <= |s| {
      assert (s + more)[..ty.size] == s[..ty.size] && (s + more)[ty.size..] == s[ty.size..] + more;
    } else if ty.TPair? {
      DecodeMore(ty.first, into.Fst(), s, more);
      if Decode(ty.first, into.Fst(), s).Some? {
        DecodeMore(ty.second, into.Snd(), Decode(ty.first, into.Fst(), s).value.rest, more);
      }
    }
  }

  lemma {:induction false} DecodeItemsMore(elem: Ty, mode: Mode, n: nat, items: seq<Val>, s: Bytes, more: Bytes)
    ensures Unaffected(DecodeItems(elem, mode, n, items, s), DecodeItems(elem, mode, n, items, s + more), more)
    decreases elem, n + 1
  {
    if n > 0 && Decode(elem, Empty(elem), s).Some? {
      var x := Decode(elem, Empty(elem), s).value;
      DecodeMore(elem, Empty(elem), s, more);
      DecodeItemsMore(elem, mode, n - 1, Insert(mode, items, x.value), x.rest, more);
    }
  }

  /** Cut anywhere, an encoding is refused: no value is made from part of another. */
  lemma TruncatedIsRefused(ty: Ty, into: Val, v: Val, k: nat)
    requires HasType(v, ty) && k < |Encode(v, ty)|
    ensures Decode(ty, into, Encode(v, ty)[..k]) == None
  {
    hide Encode, Decode;
    var s := Encode(v, ty);
    PopAfterPush(ty, into, v, []);
    assert s + [] == s && s[..k] + s[k..] == s;
    DecodeMore(ty, into, s[..k], s[k..]);
  }
}
