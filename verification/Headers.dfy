/** The header of the bytecode, written to a stream and read back table by table. */
module Headers {
  import opened IR
  import opened Streams
  import opened Interning
  import opened Records
  import opened BytecodeProgram

  /** What was read so far, followed by what is still to come. */
  function After<T>(xs: seq<T>, r: Read<seq<T>>): Read<seq<T>>
  {
    match r
    case Bad => Bad
    case Got(ys, rest) => Got(xs + ys, rest)
  }

  lemma {:induction false} NoneRead<T>(r: Read<seq<T>>)
    ensures After([], r) == r
  {
    match r
    case Bad =>
    case Got(ys, rest) => assert [] + ys == ys;
  }

  lemma {:induction false} AllRead<T>(xs: seq<T>, get: seq<Byte> -> Read<T>, rest: seq<Byte>)
    ensures After(xs, GetMany(0, get, rest)) == Got(xs, rest)
  {
    assert xs + [] == xs;
  }

  /** One more element was read from s, with rest left. */
  lemma {:induction false} AfterOne<T>(xs: seq<T>, x: T, n: nat, get: seq<Byte> -> Read<T>, s: seq<Byte>,
                                       rest: seq<Byte>)
    requires n > 0 && get(s) == Got(x, rest)
    ensures After(xs, GetMany(n, get, s)) == After(xs + [x], GetMany(n - 1, get, rest))
    ensures GetMany(n, get, s).Got? <==> GetMany(n - 1, get, rest).Got?
  {
    match GetMany(n - 1, get, rest)
    case Bad =>
    case Got(ys, end) => assert xs + ([x] + ys) == xs + [x] + ys;
  }

  lemma {:induction false} FirstRead<T>(n: nat, get: seq<Byte> -> Read<T>, s: seq<Byte>)
    requires n > 0 && GetMany(n, get, s).Got?
    ensures get(s).Got?
  {}

  lemma {:induction false} InternNone<T>(same: (T, T) -> bool)
    ensures InternAll([], same) == []
  {}

  lemma {:induction false} InternOne<T>(xs: seq<T>, x: T, same: (T, T) -> bool)
    ensures InternAll(xs + [x], same) == Interned(InternAll(xs, same), x, same)
  {
    assert (xs + [x])[..|xs|] == xs;
  }

  lemma {:induction false} IsRead<T>(xs: seq<T>, r: Read<seq<T>>, x: T)
    requires x in xs && After(xs, r).Got?
    ensures x in After(xs, r).v
  {}

  lemma {:induction false} PutFirst<T>(xs: seq<T>, i: nat, put: T -> seq<Byte>)
    requires i < |xs|
    ensures PutAll(xs[i..], put) == put(xs[i]) + PutAll(xs[i + 1..], put)
  {
    assert xs[i..][1..] == xs[i + 1..];
  }

  lemma {:induction false} PutNone<T>(put: T -> seq<Byte>)
    ensures PutAll([], put) == []
  {}

  /** Looking up xs adds nothing but elements of xs. */
  lemma {:induction false} OnlyAdded<T>(t: seq<T>, xs: seq<T>, same: (T, T) -> bool)
    ensures forall x | x in InternMany(t, xs, same) :: x in t || x in xs
    decreases |xs|
  {
    if xs != [] { OnlyAdded(Interned(t, xs[0], same), xs[1..], same); }
  }

  lemma {:induction false} HeaderRead(s: seq<Byte>)
    requires GetHeader(s).Got?
    ensures |s| >= 4 && GetWord(s).Got? && GetWord(s).v == MAGIC && GetList(GetStr, GetWord(s).rest).Got?
  {}

  /** What a readable tensor type consists of. */
  lemma {:induction false} TtyParts(strs: seq<string>, s: seq<Byte>)
    requires GetTty(strs, s).Got?
    ensures |s| >= 2 && ElemOf(s[0]).Some? && GetMany(s[1], Get2, s[2..]).Got?
    ensures forall d | d in GetMany(s[1], Get2, s[2..]).v :: d.1 < |strs|
  {
    hide GetMany, GetWord;
  }

  lemma {:induction false} TtyIs(strs: seq<string>, s: seq<Byte>, ds: seq<(nat, nat)>, rest: seq<Byte>,
                                 t: TensorType)
    requires |s| >= 2 && ElemOf(s[0]).Some? && GetMany(s[1], Get2, s[2..]) == Got(ds, rest)
    requires t.elem == ElemOf(s[0]).value && |t.dims| == |t.names| == |ds|
    requires forall k | 0 <= k < |ds| :: ds[k].1 < |strs| && t.dims[k] == ds[k].0 && t.names[k] == strs[ds[k].1]
    ensures GetTty(strs, s) == Got(t, rest)
  {
    hide GetMany, GetWord;
    assert t.dims == seq(|ds|, i requires 0 <= i < |ds| => ds[i].0);
    assert t.names == seq(|ds|, i requires 0 <= i < |ds| => (assert ds[i] in ds; strs[ds[i].1]));
  }

  class BytecodeHeader {
    const strings: IdTable<string>
    const exprTys: IdTable<ExprType>
    const tensorTys: IdTable<TensorType>

    constructor ()
      ensures Valid() && Tables() == Header([], [], [])
      ensures !strings.locked && !exprTys.locked && !tensorTys.locked
      ensures fresh(strings) && fresh(exprTys) && fresh(tensorTys)
    {
      strings := new IdTable(SameString());
      exprTys := new IdTable(SameExprType());
      tensorTys := new IdTable(SameTensor());
      new;
      Equivalences();
    }

    ghost predicate Valid()
      reads this, strings, exprTys, tensorTys
    {
      strings.Valid() && exprTys.Valid() && tensorTys.Valid() &&
      strings.same == SameString() && exprTys.same == SameExprType() && tensorTys.same == SameTensor()
    }

    ghost function Tables(): Header
      reads strings, exprTys, tensorTys
    {
      Header(strings.table, exprTys.table, tensorTys.table)
    }

    // ---- Writing --------------------------------------------------------------------------------

    /** The names of the dimensions of all tensor types enter the string table. */
    method AddNames()
      requires Valid() && !strings.locked
      modifies strings`table
      ensures Valid() && strings.table == InternMany(old(strings.table), DimNames(tensorTys.table), SameString())
    {
      ghost var first := strings.table;
      var tts := tensorTys.table;
      for i := 0 to |tts|
        invariant Valid()
        invariant InternMany(strings.table, DimNames(tts[i..]), SameString()) ==
          InternMany(first, DimNames(tts), SameString())
      {
        var names := tts[i].names;
        ghost var later := DimNames(tts[i + 1..]);
        assert tts[i..][0] == tts[i] && tts[i..][1..] == tts[i + 1..];
        for j := 0 to |names|
          invariant Valid()
          invariant InternMany(strings.table, names[j..] + later, SameString()) ==
                    InternMany(first, DimNames(tts), SameString())
        {
          assert (names[j..] + later)[1..] == names[j + 1..] + later;
          var _ := strings.GetIdFor(names[j]);
        }
        assert names[|names|..] + later == later;
      }
    }

    method WriteStrings(w: StreamWriter)
      requires forall s | s in strings.table :: |s| < 256
      modifies w
      ensures w.stream == old(w.stream) + PutList(strings.table, Str)
    {
      hide PutAll, Word, Str;
      var strs := strings.table;
      ghost var start := w.stream;
      w.WriteU32(|strs|);
      ghost var before := w.stream;
      for i := 0 to |strs|
        invariant w.stream + PutAll(strs[i..], Str) == before + PutAll(strs, Str)
      {
        PutFirst(strs, i, Str);
        w.WriteStr(strs[i]);
      }
      assert strs[|strs|..] == [] && w.stream + [] == w.stream;
      PutNone(Str);
      assert before + PutAll(strs, Str) == start + (Word(|strs|) + PutAll(strs, Str));
    }

    method WriteExprTys(w: StreamWriter)
      modifies w
      ensures w.stream == old(w.stream) + PutList(exprTys.table, PutEty)
    {
      var etys := exprTys.table;
      w.WriteU32(|etys|);
      ghost var before := w.stream;
      for i := 0 to |etys|
        invariant w.stream + PutAll(etys[i..], PutEty) == before + PutAll(etys, PutEty)
      {
        PutFirst(etys, i, PutEty);
        w.WriteU8(ElemCode(etys[i].elem));
        w.WriteU8(etys[i].width);
      }
      assert etys[|etys|..] == [] && w.stream + [] == w.stream;
      assert before + PutAll(etys, PutEty) == old(w.stream) + (Word(|etys|) + PutAll(etys, PutEty));
    }

    method WriteDim(w: StreamWriter, size: nat, name: string)
      requires Valid() && StrId(strings.table, name) < |strings.table|
      modifies w, strings`table
      ensures Valid() && strings.table == old(strings.table)
      ensures w.stream == old(w.stream) + PutDim((size, StrId(strings.table, name)))
    {
      w.WriteU32(size);
      var n := strings.GetIdFor(name);
      w.WriteU32(n);
    }

    method WriteTensorTy(w: StreamWriter, t: TensorType)
      requires Valid() && |t.names| == |t.dims|
      requires forall n | n in t.names :: StrId(strings.table, n) < |strings.table|
      modifies w, strings`table
      ensures Valid() && strings.table == old(strings.table)
      ensures w.stream == old(w.stream) + PutTty(strings.table, t)
    {
      hide PutDim, StrId, ElemCode;
      ghost var strs := strings.table;
      ghost var dims := DimCodes(strs, t);
      w.WriteU8(ElemCode(t.elem));
      w.WriteU8(|t.dims|);
      ghost var before := w.stream;
      for i := 0 to |t.dims|
        invariant Valid() && strings.table == strs
        invariant w.stream + PutAll(dims[i..], PutDim) == before + PutAll(dims, PutDim)
      {
        PutFirst(dims, i, PutDim);
        WriteDim(w, t.dims[i], t.names[i]);
      }
      assert dims[|t.dims|..] == [] && w.stream + [] == w.stream;
      assert before + PutAll(dims, PutDim) == old(w.stream) +
        ([ElemCode(t.elem), |t.dims| % 256] + PutAll(dims, PutDim));
    }

    method WriteTensorTys(w: StreamWriter)
      requires Valid()
      requires forall t | t in tensorTys.table :: |t.names| == |t.dims|
      requires forall n | n in DimNames(tensorTys.table) :: StrId(strings.table, n) < |strings.table|
      modifies w, strings`table
      ensures Valid() && strings.table == old(strings.table)
      ensures w.stream == old(w.stream) + PutList(tensorTys.table, TtyPut(strings.table))
    {
      hide PutTty, DimNames, StrId, Word;
      var tts := tensorTys.table;
      ghost var strs := strings.table;
      ghost var put := TtyPut(strs);
      w.WriteU32(|tts|);
      ghost var before := w.stream;
      for i := 0 to |tts|
        invariant Valid() && strings.table == strs
        invariant w.stream + PutAll(tts[i..], put) == before + PutAll(tts, put)
      {
        PutFirst(tts, i, put);
        DimNamesIn(tts, tts[i]);
        WriteTensorTy(w, tts[i]);
      }
      assert tts[|tts|..] == [] && w.stream + [] == w.stream;
      assert before + PutAll(tts, put) == old(w.stream) + (Word(|tts|) + PutAll(tts, put));
    }

    /** Looks up the names of the dimensions, locks the string table, and writes the three tables. */
    method Serialize(w: StreamWriter)
      requires Valid() && !strings.locked
      requires forall t | t in tensorTys.table :: |t.names| == |t.dims|
      requires forall s | s in strings.table || s in DimNames(tensorTys.table) :: |s| < 256
      modifies w, strings
      ensures Valid() && strings.locked
      ensures Tables() == old(Tables()).(strs := InternMany(old(strings.table), DimNames(tensorTys.table),
        SameString()))
      ensures w.stream == old(w.stream) + PutHeader(Tables())
    {
      hide Word, PutList, InternMany, DimNames;
      w.WriteU32(MAGIC);
      ghost var before := strings.table;
      AddNames();
      ManyInterned(before, DimNames(tensorTys.table), SameString());
      OnlyAdded(before, DimNames(tensorTys.table), SameString());
      strings.Lock();
      WriteStrings(w);
      WriteExprTys(w);
      WriteTensorTys(w);
    }

    // ---- Reading --------------------------------------------------------------------------------

    method ReadStrings(r: StreamReader)
      requires Valid() && !strings.locked && strings.table == []
      requires r.Valid() && GetList(GetStr, r.Rest()).Got?
      modifies r, strings`table
      ensures Valid() && r.Valid()
      ensures var g := GetList(GetStr, old(r.Rest()));
        strings.table == InternAll(g.v, SameString()) && r.Rest() == g.rest
    {
      hide GetWord, GetStr, GetMany, InternAll, Interned, Find;
      ghost var all := GetList(GetStr, r.Rest());
      var n := r.ReadU32();
      NoneRead(GetMany(n, GetStr, r.Rest()));
      ghost var read: seq<string> := [];
      InternNone(SameString());
      for i := 0 to n
        invariant Valid() && r.Valid() && strings.table == InternAll(read, SameString())
        invariant After(read, GetMany(n - i, GetStr, r.Rest())) == all
      {
        FirstRead(n - i, GetStr, r.Rest());
        ghost var s := r.Rest();
        var str := r.ReadStr();
        AfterOne(read, str, n - i, GetStr, s, r.Rest());
        var _ := strings.GetIdFor(str);
        InternOne(read, str, SameString());
        read := read + [str];
      }
      AllRead(read, GetStr, r.Rest());
    }

    method ReadExprTys(r: StreamReader)
      requires Valid() && !exprTys.locked && exprTys.table == []
      requires r.Valid() && GetList(GetEty, r.Rest()).Got?
      modifies r, exprTys`table
      ensures Valid() && r.Valid()
      ensures var g := GetList(GetEty, old(r.Rest()));
        exprTys.table == InternAll(g.v, SameExprType()) && r.Rest() == g.rest
    {
      hide GetWord, GetMany, InternAll, Interned, Find;
      ghost var all := GetList(GetEty, r.Rest());
      var n := r.ReadU32();
      NoneRead(GetMany(n, GetEty, r.Rest()));
      ghost var read: seq<ExprType> := [];
      InternNone(SameExprType());
      for i := 0 to n
        invariant Valid() && r.Valid() && exprTys.table == InternAll(read, SameExprType())
        invariant After(read, GetMany(n - i, GetEty, r.Rest())) == all
      {
        FirstRead(n - i, GetEty, r.Rest());
        ghost var s := r.Rest();
        var elem := r.ReadU8();
        var width := r.ReadU8();
        var ty := ExprType(ElemOf(elem).value, width);
        AfterOne(read, ty, n - i, GetEty, s, r.Rest());
        var _ := exprTys.GetIdFor(ty);
        InternOne(read, ty, SameExprType());
        read := read + [ty];
      }
      AllRead(read, GetEty, r.Rest());
    }

    method ReadTensorTy(r: StreamReader) returns (t: TensorType)
      requires r.Valid() && GetTty(strings.table, r.Rest()).Got?
      modifies r
      ensures r.Valid() && GetTty(strings.table, old(r.Rest())) == Got(t, r.Rest())
    {
      hide GetWord, GetMany, GetTty, ElemOf;
      ghost var strs, s0 := strings.table, r.Rest();
      TtyParts(strs, s0);
      var elem := r.ReadU8();
      var n := r.ReadU8();
      ghost var all := GetMany(n, Get2, r.Rest());
      var sizes: seq<nat>, names: seq<string> := [], [];
      NoneRead(all);
      ghost var read: seq<(nat, nat)> := [];
      for i := 0 to n
        invariant r.Valid() && |read| == |sizes| == |names| == i
        invariant After(read, GetMany(n - i, Get2, r.Rest())) == all
        invariant forall k | 0 <= k < i :: read[k].1 < |strings.table| &&
                    sizes[k] == read[k].0 && names[k] == strings.table[read[k].1]
      {
        FirstRead(n - i, Get2, r.Rest());
        ghost var s := r.Rest();
        var size := r.ReadU32();
        var id := r.ReadU32();
        AfterOne(read, (size, id), n - i, Get2, s, r.Rest());
        read := read + [(size, id)];
        IsRead(read, GetMany(n - i - 1, Get2, r.Rest()), (size, id));
        var name := strings.GetById(id);
        sizes, names := sizes + [size], names + [name];
      }
      AllRead(read, Get2, r.Rest());
      t := TensorType(ElemOf(elem).value, sizes, names);
      TtyIs(strs, s0, read, r.Rest(), t);
    }

    method ReadTensorTys(r: StreamReader)
      requires Valid() && !tensorTys.locked && tensorTys.table == []
      requires r.Valid() && GetList(TtyGet(strings.table), r.Rest()).Got?
      modifies r, tensorTys`table
      ensures Valid() && r.Valid()
      ensures var g := GetList(TtyGet(strings.table), old(r.Rest()));
        tensorTys.table == InternAll(g.v, SameTensor()) && r.Rest() == g.rest
    {
      hide GetWord, GetTty, GetMany, InternAll, Interned, Find;
      ghost var strs := strings.table;
      ghost var get := TtyGet(strs);
      ghost var all := GetList(get, r.Rest());
      var n := r.ReadU32();
      NoneRead(GetMany(n, get, r.Rest()));
      ghost var read: seq<TensorType> := [];
      InternNone(SameTensor());
      for i := 0 to n
        invariant Valid() && r.Valid() && tensorTys.table == InternAll(read, SameTensor())
        invariant After(read, GetMany(n - i, get, r.Rest())) == all
      {
        FirstRead(n - i, get, r.Rest());
        ghost var s := r.Rest();
        var ty := ReadTensorTy(r);
        AfterOne(read, ty, n - i, get, s, r.Rest());
        var _ := tensorTys.GetIdFor(ty);
        InternOne(read, ty, SameTensor());
        read := read + [ty];
      }
      AllRead(read, get, r.Rest());
    }

    /** Fills the empty tables from the stream, and locks them. */
    method Deserialize(r: StreamReader)
      requires Valid() && Tables() == Header([], [], [])
      requires !strings.locked && !exprTys.locked && !tensorTys.locked
      requires r.Valid() && GetHeader(r.Rest()).Got?
      modifies r, strings, exprTys, tensorTys
      ensures Valid() && r.Valid() && GetHeader(old(r.Rest())) == Got(Tables(), r.Rest())
      ensures strings.locked && exprTys.locked && tensorTys.locked
    {
      HeaderRead(r.Rest());
      hide GetWord, GetList, InternAll;
      var magic := r.ReadU32();
      ReadStrings(r);
      ReadExprTys(r);
      ReadTensorTys(r);
      strings.Lock();
      exprTys.Lock();
      tensorTys.Lock();
    }
  }
}
