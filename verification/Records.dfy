/** The records of the bytecode: header tables, expressions and statements as bytes. */
module Records {
  import opened IR
  import opened Streams
  import opened Interning

  const WORD := 0x1_0000_0000

  // ---- Lists ------------------------------------------------------------------------------------

  function PutAll<T>(xs: seq<T>, put: T -> seq<Byte>): seq<Byte>
  {
    if xs == [] then [] else put(xs[0]) + PutAll(xs[1..], put)
  }

  function GetMany<T>(n: nat, get: seq<Byte> -> Read<T>, s: seq<Byte>): Read<seq<T>>
  {
    if n == 0 then Got([], s)
    else
      match get(s)
      case Bad => Bad
      case Got(x, rest) =>
        match GetMany(n - 1, get, rest)
        case Bad => Bad
        case Got(xs, end) => Got([x] + xs, end)
  }

  /** Reading x back gives x and leaves the rest. */
  ghost predicate Back<T>(put: T -> seq<Byte>, get: seq<Byte> -> Read<T>, x: T)
  {
    forall rest: seq<Byte> :: get(put(x) + rest) == Got(x, rest)
  }

  lemma {:induction false} ManyBack<T>(xs: seq<T>, put: T -> seq<Byte>, get: seq<Byte> -> Read<T>, rest: seq<Byte>)
    requires forall i | 0 <= i < |xs| :: Back(put, get, xs[i])
    ensures GetMany(|xs|, get, PutAll(xs, put) + rest) == Got(xs, rest)
  {
    if xs != [] {
      var tail := xs[1..];
      forall i | 0 <= i < |tail| ensures Back(put, get, tail[i]) { assert tail[i] == xs[i + 1]; }
      ManyBack(tail, put, get, rest);
      assert Back(put, get, xs[0]);
      assert PutAll(xs, put) + rest == put(xs[0]) + (PutAll(tail, put) + rest);
      assert get(put(xs[0]) + (PutAll(tail, put) + rest)) == Got(xs[0], PutAll(tail, put) + rest);
      assert [xs[0]] + tail == xs;
    }
  }

  function PutWord(n: nat): seq<Byte> { Word(n) }

  /** A count in one word, and the elements. */
  function PutList<T>(xs: seq<T>, put: T -> seq<Byte>): seq<Byte> { Word(|xs|) + PutAll(xs, put) }

  function GetList<T>(get: seq<Byte> -> Read<T>, s: seq<Byte>): Read<seq<T>>
  {
    match GetWord(s)
    case Bad => Bad
    case Got(n, rest) => GetMany(n, get, rest)
  }

  lemma {:induction false} ListBack<T>(xs: seq<T>, put: T -> seq<Byte>, get: seq<Byte> -> Read<T>, rest: seq<Byte>)
    requires |xs| < WORD && forall i | 0 <= i < |xs| :: Back(put, get, xs[i])
    ensures GetList(get, PutList(xs, put) + rest) == Got(xs, rest)
  {
    hide Word, GetWord, GetMany, PutAll;
    assert PutList(xs, put) + rest == Word(|xs|) + (PutAll(xs, put) + rest);
    WordBack(|xs|, PutAll(xs, put) + rest);
    ManyBack(xs, put, get, rest);
  }

  lemma {:induction false} WordsBack(xs: seq<nat>)
    requires forall x | x in xs :: x < WORD
    ensures forall i | 0 <= i < |xs| :: Back(PutWord, GetWord, xs[i])
  {
    hide Word, GetWord;
    forall i | 0 <= i < |xs| ensures Back(PutWord, GetWord, xs[i]) {
      assert xs[i] in xs;
      forall rest: seq<Byte> ensures GetWord(PutWord(xs[i]) + rest) == Got(xs[i], rest) { WordBack(xs[i], rest); }
    }
  }

  // ---- Expressions ----------------------------------------------------------------------------------

  /** What is written for an expression: numbers of other expressions, of statements, and of
      entries of the tables. */
  datatype ERec =
    | RConst(val: nat)
    | RFloat(bits: nat)
    | RString(str: nat)
    | RBinary(op: nat, lhs: nat, rhs: nat)
    | RUnary(un: nat, val: nat)
    | RLoad(ty: nat, gep: nat)
    | RLoadLocal(v: nat)
    | RBroadcast(scalar: nat, vf: nat)
    | RIndex(stmt: nat)
    | RGep(arg: nat, idxs: seq<nat>)

  datatype Numbered<T> = Numbered(id: nat, rec: T)

  function PutE(e: Numbered<ERec>): seq<Byte>
  {
    match e.rec
    case RConst(v) => Word(0) + Word(e.id) + Word(v)
    case RFloat(b) => Word(1) + Word(e.id) + Word(b)
    case RString(n) => Word(2) + Word(e.id) + Word(n)
    case RBinary(op, l, r) => Word(3) + Word(e.id) + [op % 256] + Word(l) + Word(r)
    case RUnary(op, v) => Word(4) + Word(e.id) + [op % 256] + Word(v)
    case RLoad(ty, gep) => Word(5) + Word(e.id) + Word(ty) + Word(gep)
    case RLoadLocal(v) => Word(6) + Word(e.id) + Word(v)
    case RBroadcast(x, vf) => Word(7) + Word(e.id) + Word(x) + [vf % 256]
    case RIndex(n) => Word(8) + Word(e.id) + Word(n)
    case RGep(arg, idxs) => Word(9) + Word(e.id) + Word(arg) + PutList(idxs, PutWord)
  }

  function Get2(s: seq<Byte>): Read<(nat, nat)>
  {
    match GetWord(s)
    case Bad => Bad
    case Got(a, r1) =>
      match GetWord(r1)
      case Bad => Bad
      case Got(b, r2) => Got((a, b), r2)
  }

  function GetE(s: seq<Byte>): Read<Numbered<ERec>>
  {
    match Get2(s)
    case Bad => Bad
    case Got(h, r) => GetEBody(h.0, h.1, r)
  }

  /** The fields of an expression, by its opcode. */
  function GetEBody(opcode: nat, id: nat, s: seq<Byte>): Read<Numbered<ERec>>
    decreases if opcode == 2 then 1 else 0
  {
    if opcode == 0 then
      (match GetWord(s) case Bad => Bad case Got(v, r) => Got(Numbered(id, RConst(v)), r))
    else if opcode == 1 then
      (match GetWord(s) case Bad => Bad case Got(v, r) => Got(Numbered(id, RFloat(v)), r))
    else if opcode == 2 then
      // The case for strings has no return: it goes on into the one for binary operators.
      (match GetWord(s) case Bad => Bad case Got(_, r) => GetEBody(3, id, r))
    else if opcode == 3 then
      (match GetByte(s)
       case Bad => Bad
       case Got(op, r) => match Get2(r) case Bad => Bad case Got(p, r2) => Got(Numbered(id, RBinary(op, p.0, p.1)), r2))
    else if opcode == 4 then
      (match GetByte(s)
       case Bad => Bad
       case Got(op, r) => match GetWord(r) case Bad => Bad case Got(v, r2) => Got(Numbered(id, RUnary(op, v)), r2))
    else if opcode == 5 then
      (match Get2(s) case Bad => Bad case Got(p, r) => Got(Numbered(id, RLoad(p.0, p.1)), r))
    else if opcode == 6 then
      (match GetWord(s) case Bad => Bad case Got(v, r) => Got(Numbered(id, RLoadLocal(v)), r))
    else if opcode == 7 then
      (match GetWord(s)
       case Bad => Bad
       case Got(v, r) => match GetByte(r) case Bad => Bad case Got(vf, r2) => Got(Numbered(id, RBroadcast(v, vf)), r2))
    else if opcode == 8 then
      (match GetWord(s) case Bad => Bad case Got(v, r) => Got(Numbered(id, RIndex(v)), r))
    else if opcode == 9 then
      (match GetWord(s)
       case Bad => Bad
       case Got(arg, r) =>
         match GetList(GetWord, r) case Bad => Bad case Got(xs, r2) => Got(Numbered(id, RGep(arg, xs)), r2))
    else Bad
  }

  /** Every field fits the width it is written with. */
  predicate FitsE(e: Numbered<ERec>)
  {
    e.id < WORD &&
    match e.rec
    case RConst(v) => v < WORD
    case RFloat(b) => b < WORD
    case RString(n) => n < WORD
    case RBinary(op, l, r) => op < 256 && l < WORD && r < WORD
    case RUnary(op, v) => op < 256 && v < WORD
    case RLoad(ty, gep) => ty < WORD && gep < WORD
    case RLoadLocal(v) => v < WORD
    case RBroadcast(x, vf) => x < WORD && vf < 256
    case RIndex(n) => n < WORD
    case RGep(arg, idxs) => arg < WORD && |idxs| < WORD && forall x | x in idxs :: x < WORD
  }

  lemma {:induction false} TwoBack(a: nat, b: nat, rest: seq<Byte>)
    requires a < WORD && b < WORD
    ensures Get2(Word(a) + Word(b) + rest) == Got((a, b), rest)
  {
    hide Word, GetWord;
    assert Word(a) + Word(b) + rest == Word(a) + (Word(b) + rest);
    WordBack(a, Word(b) + rest);
    WordBack(b, rest);
  }

  /** The opcode and the number come first. */
  lemma {:induction false} HeadBack(opcode: nat, id: nat, fields: seq<Byte>)
    requires opcode < 10 && id < WORD
    ensures GetE(Word(opcode) + Word(id) + fields) == GetEBody(opcode, id, fields)
  {
    TwoBack(opcode, id, fields);
  }

  /** A string is read as a binary operator with its number, whose fields are the bytes that
      follow the string. */
  lemma {:induction false} StringFallsThrough(id: nat, str: nat, rest: seq<Byte>)
    requires id < WORD && str < WORD
    ensures GetE(PutE(Numbered(id, RString(str))) + rest) == GetE(Word(3) + Word(id) + rest)
  {
    hide Word, GetWord;
    FieldsOne(Numbered(id, RString(str)), 2, str, rest);
    HeadBack(3, id, rest);
  }

  /** What is read as a binary operator is one. */
  lemma {:induction false} BinaryRead(id: nat, s: seq<Byte>)
    ensures GetEBody(3, id, s).Got? ==> GetEBody(3, id, s).v.rec.RBinary?
  {}

  /** An expression record is read back as it was written, except for strings, which are
      never read back. */
  lemma {:induction false} ExprBack(e: Numbered<ERec>, rest: seq<Byte>)
    requires FitsE(e)
    ensures GetE(PutE(e) + rest) == Got(e, rest) <==> !e.rec.RString?
  {
    hide Word, GetWord, GetMany, PutAll, GetByte;
    var head := Word(0) + Word(e.id);
    match e.rec
    case RConst(v) => FieldsOne(e, 0, v, rest);
    case RFloat(v) => FieldsOne(e, 1, v, rest);
    case RString(v) =>
      StringFallsThrough(e.id, v, rest);
      HeadBack(3, e.id, rest);
      BinaryRead(e.id, rest);
    case RBinary(op, l, r) =>
      var fields := [op] + (Word(l) + Word(r) + rest);
      assert PutE(e) + rest == Word(3) + Word(e.id) + fields;
      HeadBack(3, e.id, fields);
      ByteBack(op, Word(l) + Word(r) + rest);
      TwoBack(l, r, rest);
    case RUnary(op, v) =>
      var fields := [op] + (Word(v) + rest);
      assert PutE(e) + rest == Word(4) + Word(e.id) + fields;
      HeadBack(4, e.id, fields);
      ByteBack(op, Word(v) + rest);
      WordBack(v, rest);
    case RLoad(ty, gep) =>
      var fields := Word(ty) + Word(gep) + rest;
      assert PutE(e) + rest == Word(5) + Word(e.id) + fields;
      HeadBack(5, e.id, fields);
      TwoBack(ty, gep, rest);
    case RLoadLocal(v) => FieldsOne(e, 6, v, rest);
    case RBroadcast(x, vf) =>
      var fields := Word(x) + ([vf] + rest);
      assert PutE(e) + rest == Word(7) + Word(e.id) + fields;
      HeadBack(7, e.id, fields);
      WordBack(x, [vf] + rest);
      ByteBack(vf, rest);
    case RIndex(v) => FieldsOne(e, 8, v, rest);
    case RGep(arg, idxs) =>
      var fields := Word(arg) + (PutList(idxs, PutWord) + rest);
      assert PutE(e) + rest == Word(9) + Word(e.id) + fields;
      HeadBack(9, e.id, fields);
      WordBack(arg, PutList(idxs, PutWord) + rest);
      WordsBack(idxs);
      ListBack(idxs, PutWord, GetWord, rest);
  }

  lemma {:induction false} FieldsOne(e: Numbered<ERec>, opcode: nat, v: nat, rest: seq<Byte>)
    requires opcode < 10 && e.id < WORD && v < WORD
    ensures GetE(Word(opcode) + Word(e.id) + Word(v) + rest) == GetEBody(opcode, e.id, Word(v) + rest)
    ensures GetWord(Word(v) + rest) == Got(v, rest)
  {
    hide Word, GetWord;
    assert Word(opcode) + Word(e.id) + Word(v) + rest == Word(opcode) + Word(e.id) + (Word(v) + rest);
    HeadBack(opcode, e.id, Word(v) + rest);
    WordBack(v, rest);
  }

  // ---- Statements --------------------------------------------------------------------------------------

  datatype SRec =
    | SLoop(name: nat, end: nat, stride: nat)
    | SCall(callee: nat, params: seq<nat>)
    | SStore(acc: bool, val: nat, gep: nat)
    | SStoreLocal(v: nat, acc: bool, val: nat)
    | SIfRange(idx: nat, start: nat, stop: nat)

  /** A statement with its number and the number of its parent. */
  datatype Placed = Placed(id: nat, parent: nat, rec: SRec)

  function Flag(b: bool): Byte { if b then 1 else 0 }

  function PutS(p: Placed): seq<Byte>
  {
    match p.rec
    case SLoop(name, end, stride) => Word(0) + Word(p.id) + Word(p.parent) + Word(name) + Word(end) + Word(stride)
    case SCall(callee, ps) =>
      Word(1) + Word(p.id) + Word(p.parent) + Word(callee) + [|ps| % 256] + PutAll(ps, PutWord)
    case SStore(acc, v, gep) => Word(2) + Word(p.id) + Word(p.parent) + [Flag(acc)] + Word(v) + Word(gep)
    case SStoreLocal(v, acc, x) => Word(3) + Word(p.id) + Word(p.parent) + Word(v) + [Flag(acc)] + Word(x)
    // The start of the range is written where the end should be.
    case SIfRange(idx, start, stop) => Word(4) + Word(p.id) + Word(p.parent) + Word(idx) + Word(start) + Word(start)
  }

  function GetS(s: seq<Byte>): Read<Placed>
  {
    match Get2(s)
    case Bad => Bad
    case Got(h, r) => match GetWord(r) case Bad => Bad case Got(parent, r2) => GetSBody(h.0, h.1, parent, r2)
  }

  function GetSBody(opcode: nat, id: nat, parent: nat, s: seq<Byte>): Read<Placed>
  {
    if opcode == 0 then
      (match Get2(s)
       case Bad => Bad
       case Got(p, r) => match GetWord(r) case Bad => Bad case Got(c, r2) =>
         Got(Placed(id, parent, SLoop(p.0, p.1, c)), r2))
    else if opcode == 1 then
      (match GetWord(s)
       case Bad => Bad
       case Got(name, r) =>
         match GetByte(r)
         case Bad => Bad
         case Got(n, r2) =>
           match GetMany(n, GetWord, r2) case Bad => Bad case Got(ps, r3) =>
             Got(Placed(id, parent, SCall(name, ps)), r3))
    else if opcode == 2 then
      (match GetByte(s)
       case Bad => Bad
       case Got(acc, r) => match Get2(r) case Bad => Bad case Got(p, r2) =>
         Got(Placed(id, parent, SStore(acc != 0, p.0, p.1)), r2))
    else if opcode == 3 then
      (match GetWord(s)
       case Bad => Bad
       case Got(v, r) =>
         match GetByte(r)
         case Bad => Bad
         case Got(acc, r2) => match GetWord(r2) case Bad => Bad case Got(x, r3) =>
           Got(Placed(id, parent, SStoreLocal(v, acc != 0, x)), r3))
    else if opcode == 4 then
      (match Get2(s)
       case Bad => Bad
       case Got(p, r) => match GetWord(r) case Bad => Bad case Got(c, r2) =>
         Got(Placed(id, parent, SIfRange(p.0, p.1, c)), r2))
    else Bad
  }

  predicate FitsS(p: Placed)
  {
    p.id < WORD && p.parent < WORD &&
    match p.rec
    case SLoop(name, end, stride) => name < WORD && end < WORD && stride < WORD
    case SCall(callee, ps) => callee < WORD && |ps| < 256 && forall x | x in ps :: x < WORD
    case SStore(_, v, gep) => v < WORD && gep < WORD
    case SStoreLocal(v, _, x) => v < WORD && x < WORD
    case SIfRange(idx, start, stop) => idx < WORD && start < WORD && stop < WORD
  }

  lemma {:induction false} StmtHead(opcode: nat, id: nat, parent: nat, fields: seq<Byte>)
    requires opcode < 5 && id < WORD && parent < WORD
    ensures GetS(Word(opcode) + Word(id) + Word(parent) + fields) == GetSBody(opcode, id, parent, fields)
  {
    hide Word, GetWord;
    assert Word(opcode) + Word(id) + Word(parent) + fields == Word(opcode) + Word(id) + (Word(parent) + fields);
    TwoBack(opcode, id, Word(parent) + fields);
    WordBack(parent, fields);
  }

  lemma {:induction false} ThreeBack(a: nat, b: nat, c: nat, rest: seq<Byte>)
    requires a < WORD && b < WORD && c < WORD
    ensures var s := Word(a) + Word(b) + (Word(c) + rest);
      Get2(s) == Got((a, b), Word(c) + rest) && GetWord(Word(c) + rest) == Got(c, rest)
  {
    hide Word, GetWord;
    TwoBack(a, b, Word(c) + rest);
    WordBack(c, rest);
  }

  /** A statement record is read back as it was written, except for an if whose range is not
      empty: its start is written twice. */
  lemma {:induction false} StmtBack(p: Placed, rest: seq<Byte>)
    requires FitsS(p)
    ensures GetS(PutS(p) + rest) == Got(p, rest) <==> (p.rec.SIfRange? ==> p.rec.start == p.rec.stop)
  {
    hide Word, GetWord, GetMany, PutAll, GetByte;
    match p.rec
    case SLoop(name, end, stride) =>
      var fields := Word(name) + Word(end) + (Word(stride) + rest);
      assert PutS(p) + rest == Word(0) + Word(p.id) + Word(p.parent) + fields;
      StmtHead(0, p.id, p.parent, fields);
      ThreeBack(name, end, stride, rest);
    case SCall(callee, ps) =>
      var list := PutAll(ps, PutWord) + rest;
      var fields := Word(callee) + ([|ps|] + list);
      assert PutS(p) + rest == Word(1) + Word(p.id) + Word(p.parent) + fields;
      StmtHead(1, p.id, p.parent, fields);
      WordBack(callee, [|ps|] + list);
      ByteBack(|ps|, list);
      WordsBack(ps);
      ManyBack(ps, PutWord, GetWord, rest);
    case SStore(acc, v, gep) =>
      var fields := [Flag(acc)] + (Word(v) + Word(gep) + rest);
      assert PutS(p) + rest == Word(2) + Word(p.id) + Word(p.parent) + fields;
      StmtHead(2, p.id, p.parent, fields);
      ByteBack(Flag(acc), Word(v) + Word(gep) + rest);
      TwoBack(v, gep, rest);
    case SStoreLocal(v, acc, x) =>
      var fields := Word(v) + ([Flag(acc)] + (Word(x) + rest));
      assert PutS(p) + rest == Word(3) + Word(p.id) + Word(p.parent) + fields;
      StmtHead(3, p.id, p.parent, fields);
      WordBack(v, [Flag(acc)] + (Word(x) + rest));
      ByteBack(Flag(acc), Word(x) + rest);
      WordBack(x, rest);
    case SIfRange(idx, start, stop) =>
      var fields := Word(idx) + Word(start) + (Word(start) + rest);
      assert PutS(p) + rest == Word(4) + Word(p.id) + Word(p.parent) + fields;
      StmtHead(4, p.id, p.parent, fields);
      ThreeBack(idx, start, start, rest);
  }

  // ---- Header ------------------------------------------------------------------------------------------

  /** The type of a buffer. */
  datatype TensorType = TensorType(elem: ElemKind, dims: seq<nat>, names: seq<string>)

  function ElemCode(e: ElemKind): Byte
  {
    match e
    case Float32Ty => 0
    case Int8Ty => 1
    case IndexTy => 2
    case PtrTy => 3
    case StringTy => 4
  }

  function ElemOf(c: nat): Option<ElemKind>
  {
    if c == 0 then Some(Float32Ty)
    else if c == 1 then Some(Int8Ty)
    else if c == 2 then Some(IndexTy)
    else if c == 3 then Some(PtrTy)
    else if c == 4 then Some(StringTy)
    else None
  }

  function SameString(): (string, string) -> bool { (a: string, b: string) => a == b }
  function SameExprType(): (ExprType, ExprType) -> bool { (a: ExprType, b: ExprType) => a == b }

  /** Type::isEqual: the names of the dimensions do not count. */
  function SameTensor(): (TensorType, TensorType) -> bool
  {
    (a: TensorType, b: TensorType) => a.elem == b.elem && a.dims == b.dims
  }

  lemma {:induction false} Equivalences()
    ensures Equivalence(SameString()) && Equivalence(SameExprType()) && Equivalence(SameTensor())
  {}

  datatype Header = Header(strs: seq<string>, etys: seq<ExprType>, ttys: seq<TensorType>)

  function StrId(strs: seq<string>, s: string): nat { Find(strs, s, SameString()) }

  function PutEty(t: ExprType): seq<Byte> { [ElemCode(t.elem), t.width % 256] }

  function GetEty(s: seq<Byte>): Read<ExprType>
  {
    if |s| < 2 || ElemOf(s[0]).None? then Bad else Got(ExprType(ElemOf(s[0]).value, s[1]), s[2..])
  }

  /** The size and the number of the name of a dimension. */
  function PutDim(d: (nat, nat)): seq<Byte> { Word(d.0) + Word(d.1) }

  function DimCodes(strs: seq<string>, t: TensorType): seq<(nat, nat)>
    requires |t.names| == |t.dims|
  {
    seq(|t.dims|, i requires 0 <= i < |t.dims| => (t.dims[i], StrId(strs, t.names[i])))
  }

  function PutTty(strs: seq<string>, t: TensorType): seq<Byte>
  {
    if |t.names| != |t.dims| then [] else [ElemCode(t.elem), |t.dims| % 256] + PutAll(DimCodes(strs, t), PutDim)
  }

  function GetTty(strs: seq<string>, s: seq<Byte>): Read<TensorType>
  {
    if |s| < 2 || ElemOf(s[0]).None? then Bad
    else
      match GetMany(s[1], Get2, s[2..])
      case Bad => Bad
      case Got(ds, rest) =>
        if exists d | d in ds :: d.1 >= |strs| then Bad
        else
          Got(TensorType(ElemOf(s[0]).value, seq(|ds|, i requires 0 <= i < |ds| => ds[i].0),
                         seq(|ds|, i requires 0 <= i < |ds| => (assert ds[i] in ds; strs[ds[i].1]))), rest)
  }

  function TtyPut(strs: seq<string>): TensorType -> seq<Byte> { (t: TensorType) => PutTty(strs, t) }
  function TtyGet(strs: seq<string>): seq<Byte> -> Read<TensorType> { (s: seq<Byte>) => GetTty(strs, s) }

  predicate FitsEty(t: ExprType) { t.width < 256 }

  predicate FitsTty(strs: seq<string>, t: TensorType)
  {
    |t.names| == |t.dims| < 256 && |strs| < WORD &&
    (forall d | d in t.dims :: d < WORD) && forall n | n in t.names :: StrId(strs, n) < |strs|
  }

  lemma {:induction false} EtyBack(t: ExprType)
    requires FitsEty(t)
    ensures Back(PutEty, GetEty, t)
  {
    forall rest: seq<Byte> ensures GetEty(PutEty(t) + rest) == Got(t, rest) {
      assert (PutEty(t) + rest)[2..] == rest;
    }
  }

  lemma {:induction false} TtyBack(strs: seq<string>, t: TensorType, rest: seq<Byte>)
    requires FitsTty(strs, t)
    ensures GetTty(strs, PutTty(strs, t) + rest) == Got(t, rest)
  {
    hide Word, GetWord;
    var ds := DimCodes(strs, t);
    var s := PutTty(strs, t) + rest;
    assert s[2..] == PutAll(ds, PutDim) + rest;
    forall i | 0 <= i < |ds| ensures Back(PutDim, Get2, ds[i]) {
      assert t.dims[i] in t.dims && t.names[i] in t.names;
      forall r: seq<Byte> ensures Get2(PutDim(ds[i]) + r) == Got(ds[i], r) {
        TwoBack(ds[i].0, ds[i].1, r);
      }
    }
    ManyBack(ds, PutDim, Get2, rest);
    forall i | 0 <= i < |ds| ensures ds[i].1 < |strs| && strs[ds[i].1] == t.names[i] {
      assert t.names[i] in t.names;
      FindIs(strs, t.names[i], SameString());
    }
    var dims := seq(|ds|, i requires 0 <= i < |ds| => ds[i].0);
    assert dims == t.dims;
    var names := seq(|ds|, i requires 0 <= i < |ds| => strs[ds[i].1]);
    assert names == t.names;
  }

  const MAGIC := 0x0307_0102

  function PutHeader(h: Header): seq<Byte>
  {
    Word(MAGIC) + (PutList(h.strs, Str) + (PutList(h.etys, PutEty) + PutList(h.ttys, TtyPut(h.strs))))
  }

  /** The table that looking up xs one by one makes. */
  function InternAll<T>(xs: seq<T>, same: (T, T) -> bool): seq<T>
  {
    if xs == [] then [] else Interned(InternAll(xs[..|xs| - 1], same), xs[|xs| - 1], same)
  }

  lemma {:induction false} InternAllDistinct<T(!new)>(xs: seq<T>, same: (T, T) -> bool)
    requires Equivalence(same) && Distinct(xs, same)
    ensures InternAll(xs, same) == xs
  {
    if xs != [] {
      var n := |xs| - 1;
      InternAllDistinct(xs[..n], same);
      Reinterned(xs, n, same);
      assert xs[..n + 1] == xs;
    }
  }

  function GetHeader(s: seq<Byte>): Read<Header>
  {
    match GetWord(s)
    case Bad => Bad
    case Got(magic, r) =>
      if magic != MAGIC then Bad
      else
        match GetList(GetStr, r)
        case Bad => Bad
        case Got(strs0, r1) =>
          var strs := InternAll(strs0, SameString());
          match GetList(GetEty, r1)
          case Bad => Bad
          case Got(etys, r2) =>
            match GetList(TtyGet(strs), r2)
            case Bad => Bad
            case Got(ttys, r3) => Got(Header(strs, InternAll(etys, SameExprType()), InternAll(ttys, SameTensor())), r3)
  }

  predicate FitsHeader(h: Header)
  {
    |h.strs| < WORD && |h.etys| < WORD && |h.ttys| < WORD &&
    Distinct(h.strs, SameString()) && Distinct(h.etys, SameExprType()) && Distinct(h.ttys, SameTensor()) &&
    (forall s | s in h.strs :: Writable(s)) && (forall t | t in h.etys :: FitsEty(t)) &&
    forall t | t in h.ttys :: FitsTty(h.strs, t)
  }

  /** The header is read back as it was written. */
  lemma {:induction false} HeaderBack(h: Header, rest: seq<Byte>)
    requires FitsHeader(h)
    ensures GetHeader(PutHeader(h) + rest) == Got(h, rest)
  {
    var putT, getT := TtyPut(h.strs), TtyGet(h.strs);
    var c := PutList(h.ttys, putT) + rest;
    var b := PutList(h.etys, PutEty) + c;
    var a := PutList(h.strs, Str) + b;
    assert PutHeader(h) + rest == Word(MAGIC) + a;
    WordBack(MAGIC, a);
    forall i | 0 <= i < |h.strs| ensures Back(Str, GetStr, h.strs[i]) {
      assert h.strs[i] in h.strs;
      forall r: seq<Byte> ensures GetStr(Str(h.strs[i]) + r) == Got(h.strs[i], r) { StrBack(h.strs[i], r); }
    }
    ListBack(h.strs, Str, GetStr, b);
    forall i | 0 <= i < |h.etys| ensures Back(PutEty, GetEty, h.etys[i]) {
      assert h.etys[i] in h.etys;
      EtyBack(h.etys[i]);
    }
    ListBack(h.etys, PutEty, GetEty, c);
    forall i | 0 <= i < |h.ttys| ensures Back(putT, getT, h.ttys[i]) {
      assert h.ttys[i] in h.ttys;
      forall r: seq<Byte> ensures getT(putT(h.ttys[i]) + r) == Got(h.ttys[i], r) { TtyBack(h.strs, h.ttys[i], r); }
    }
    ListBack(h.ttys, putT, getT, rest);
    Equivalences();
    InternAllDistinct(h.strs, SameString());
    InternAllDistinct(h.etys, SameExprType());
    InternAllDistinct(h.ttys, SameTensor());
  }
}
