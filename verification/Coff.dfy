/**
 Numbering the COFF symbol table before it is written (AuxEntryCount, FixDbgList,
 NumberEntries, RenumberSyms and dbg_fixup against WriteEntries, obj_outsymtab and
 dbg_outsymtab in arm/coff.c).

 Indices are given out in six passes, long before the six passes that write the records;
 they are right only if the two agree about the order and the size of everything.
 */
module Coff {
  import opened Words

  /** Dbg_Type, as far as sizes go: the number of dimensions, and whether it has a tag. */
  datatype DbgType = DbgType(dims: nat, tagged: bool)

  /** An item of a debug list; symbols are numbered by their place in the symbol list. */
  datatype Entry =
    | File(next: Option<nat>)
    | Proc(sym: Option<nat>, end: Option<nat>)
    | EndProc
    | BlockStart(end: Option<nat>)
    | BlockEnd
    | Var(sym: Option<nat>, typ: DbgType)
    | UndefVar(sym: Option<nat>, typ: DbgType)
    | TypeDef(typ: DbgType)
    | Enumeration(entries: nat)
    | Aggregate(members: seq<DbgType>)

  /** Flags of an external symbol; `segment` says that it is the code, data or bss segment. */
  datatype Symbol = Symbol(defloc: bool, defext: bool, deleted: bool, section: bool, segment: bool)

  datatype Pass = All | Defined | Undefined

  datatype Class = LocalSyms | ExternSyms | OtherSyms

  /** A record of the table: the first of an item, a further one, an auxiliary one, or a symbol's. */
  datatype Rec = Head(global: bool, item: nat, value: int) | Part | Aux(ref: int) | Sym(symbol: nat)

  function AuxCount(t: DbgType): nat { if t.dims != 0 then 1 else if t.tagged then 1 else 0 }

  predicate Selected(e: Entry, pass: Pass) { pass == All || (if pass == Defined then !e.UndefVar? else e.UndefVar?) }

  predicate InClass(s: Symbol, c: Class)
  {
    !s.deleted && s.defloc == (c == LocalSyms) && s.defext == (c == ExternSyms)
  }

  // ---- sizes as numbering sees them ----

  function MembersSize(ms: seq<DbgType>): nat { if |ms| == 0 then 0 else 1 + AuxCount(ms[0]) + MembersSize(ms[1..]) }

  function Size(e: Entry): (n: nat)
    ensures n >= 1
  {
    match e
    case Proc(_, _) => 4
    case BlockStart(_) => 2
    case BlockEnd => 2
    case File(_) => 2
    case EndProc => 2
    case UndefVar(_, t) => 1 + AuxCount(t)
    case Var(_, t) => 1 + AuxCount(t)
    case TypeDef(t) => 1 + AuxCount(t)
    case Enumeration(n) => 2 + n + 2
    case Aggregate(ms) => 4 + MembersSize(ms)
  }

  /** The index of item i when the pass starts at `start`, or the one after the pass for i = |es|. */
  function EntryIndex(es: seq<Entry>, pass: Pass, start: int, i: nat): int
    requires i <= |es|
  {
    if i == 0 then start
    else EntryIndex(es, pass, start, i - 1) + (if Selected(es[i - 1], pass) then Size(es[i - 1]) else 0)
  }

  function SymSize(s: Symbol): nat { if s.section then 2 else 1 }

  function SymIndex(syms: seq<Symbol>, c: Class, start: int, j: nat): int
    requires j <= |syms|
  {
    if j == 0 then start
    else SymIndex(syms, c, start, j - 1) + (if InClass(syms[j - 1], c) then SymSize(syms[j - 1]) else 0)
  }

  // ---- records as writing makes them ----

  function TypeAux(t: DbgType): seq<Rec> { if t.dims == 0 && !t.tagged then [] else [Aux(0)] }

  function Members(ms: seq<DbgType>): seq<Rec> { if |ms| == 0 then [] else [Part] + TypeAux(ms[0]) + Members(ms[1..]) }

  function Parts(n: nat): seq<Rec> { seq(n, _ => Part) }

  /** The indices of a list as recorded in its items. */
  function Ref(index: seq<int>, i: Option<nat>, n: int): int
  {
    if i.Some? && i.value < |index| then index[i.value] + n else 0
  }

  function Next(index: seq<int>, i: nat): Option<nat> { if i + 1 < |index| then Some(i + 1) else None }

  function EntryRecs(e: Entry, global: bool, i: nat, index: seq<int>, globIndex: int): seq<Rec>
  {
    match e
    case File(next) => [Head(global, i, if next.None? then globIndex else Ref(index, next, 0)), Aux(0)]
    case Proc(_, end) => [Head(global, i, 0), Aux(Ref(index, end, 2)), Part, Aux(Ref(index, end, 2))]
    case EndProc => [Head(global, i, 0), Aux(0)]
    case BlockStart(end) => [Head(global, i, 0), Aux(Ref(index, end, 2))]
    case BlockEnd => [Head(global, i, 0), Aux(0)]
    case UndefVar(_, t) => [Head(global, i, 0)] + TypeAux(t)
    case Var(_, t) => [Head(global, i, 0)] + TypeAux(t)
    case TypeDef(t) => [Head(global, i, 0)] + TypeAux(t)
    case Enumeration(n) =>
      [Head(global, i, 0), Aux(Ref(index, Next(index, i), 0))] + Parts(n) + [Part, Aux(Ref(index, Some(i), 0))]
    case Aggregate(ms) =>
      [Head(global, i, 0), Aux(Ref(index, Next(index, i), 0))] + Members(ms) + [Part, Aux(Ref(index, Some(i), 0))]
  }

  function ListRecs(es: seq<Entry>, global: bool, pass: Pass, index: seq<int>, globIndex: int, i: nat): seq<Rec>
    requires i <= |es|
  {
    if i == 0 then []
    else ListRecs(es, global, pass, index, globIndex, i - 1)
         + (if Selected(es[i - 1], pass) then EntryRecs(es[i - 1], global, i - 1, index, globIndex) else [])
  }

  /** obj_outsymtab: the three segment symbols carry an auxiliary record. */
  function SymRecs(syms: seq<Symbol>, c: Class, j: nat): seq<Rec>
    requires j <= |syms|
  {
    if j == 0 then []
    else SymRecs(syms, c, j - 1)
         + (if InClass(syms[j - 1], c) then [Sym(j - 1)] + (if syms[j - 1].segment then [Aux(0)] else []) else [])
  }

  // ---- the two agree ----

  lemma {:induction false} MembersAgree(ms: seq<DbgType>)
    ensures |Members(ms)| == MembersSize(ms)
  {
    if |ms| > 0 { MembersAgree(ms[1..]); }
  }

  lemma EntryAgrees(e: Entry, global: bool, i: nat, index: seq<int>, globIndex: int)
    ensures |EntryRecs(e, global, i, index, globIndex)| == Size(e)
    ensures var r := EntryRecs(e, global, i, index, globIndex)[0]; r.Head? && r.global == global && r.item == i
  {
    if e.Aggregate? { MembersAgree(e.members); }
  }

  /** Item i of a pass is written where it was numbered. */
  lemma {:induction false} ListAgrees(es: seq<Entry>, global: bool, pass: Pass, index: seq<int>, globIndex: int, n: nat,
          start: int)
    requires n <= |es|
    ensures |ListRecs(es, global, pass, index, globIndex, n)| == EntryIndex(es, pass, start, n) - start
    ensures forall i :: 0 <= i < n && Selected(es[i], pass) ==>
              IsHead(ListRecs(es, global, pass, index, globIndex, n), EntryIndex(es, pass, start, i) - start, global, i)
  {
    hide EntryRecs, Size, IsHead, ListRecs, EntryIndex;
    ListStep(es, global, pass, index, globIndex, n, start);
    if n > 0 {
      ListAgrees(es, global, pass, index, globIndex, n - 1, start);
      EntryAgrees(es[n - 1], global, n - 1, index, globIndex);
      var before := ListRecs(es, global, pass, index, globIndex, n - 1);
      var last := if Selected(es[n - 1], pass) then EntryRecs(es[n - 1], global, n - 1, index, globIndex) else [];
      forall i | 0 <= i < n && Selected(es[i], pass)
        ensures IsHead(before + last, EntryIndex(es, pass, start, i) - start, global, i)
      {
        if i < n - 1 {
          HeadStays(before, last, EntryIndex(es, pass, start, i) - start, global, i);
        } else {
          HeadNext(before, last, global, i);
        }
      }
    }
  }

  lemma ListStep(es: seq<Entry>, global: bool, pass: Pass, index: seq<int>, globIndex: int, n: nat, start: int)
    requires n <= |es|
    ensures n == 0 ==> ListRecs(es, global, pass, index, globIndex, n) == [] && EntryIndex(es, pass, start, n) == start
    ensures n > 0 ==>
              && ListRecs(es, global, pass, index, globIndex, n)
                 == ListRecs(es, global, pass, index, globIndex, n - 1)
                    + (if Selected(es[n - 1], pass) then EntryRecs(es[n - 1], global, n - 1, index, globIndex) else [])
              && EntryIndex(es, pass, start, n)
                 == EntryIndex(es, pass, start, n - 1) + (if Selected(es[n - 1], pass) then Size(es[n - 1]) else 0)
  {
    hide EntryRecs, Size;
  }

  lemma HeadStays(a: seq<Rec>, b: seq<Rec>, k: int, global: bool, i: nat)
    requires IsHead(a, k, global, i)
    ensures IsHead(a + b, k, global, i)
  {
  }

  lemma HeadNext(a: seq<Rec>, b: seq<Rec>, global: bool, i: nat)
    requires |b| > 0 && b[0].Head? && b[0].global == global && b[0].item == i
    ensures IsHead(a + b, |a|, global, i)
  {
  }

  predicate IsHead(out: seq<Rec>, k: int, global: bool, i: nat)
  {
    0 <= k < |out| && out[k].Head? && out[k].global == global && out[k].item == i
  }

  predicate IsSym(out: seq<Rec>, k: int, j: nat) { 0 <= k < |out| && out[k] == Sym(j) }

  /** A symbol written with a segment's auxiliary record is one that was numbered as a section. */
  predicate SectionsAgree(syms: seq<Symbol>)
  {
    forall s :: s in syms && !s.deleted && !(s.defloc && s.defext) ==> (s.section <==> s.segment)
  }

  lemma {:induction false} SymsAgree(syms: seq<Symbol>, c: Class, n: nat, start: int)
    requires n <= |syms| && SectionsAgree(syms)
    ensures |SymRecs(syms, c, n)| == SymIndex(syms, c, start, n) - start
    ensures forall j :: 0 <= j < n && InClass(syms[j], c) ==>
            IsSym(SymRecs(syms, c, n), SymIndex(syms, c, start, j) - start, j)
  {
    if n > 0 {
      SymsAgree(syms, c, n - 1, start);
      assert syms[n - 1] in syms;
    }
  }

  lemma HeadLater(a: seq<Rec>, b: seq<Rec>, c: seq<Rec>, k: int, global: bool, i: nat)
    requires IsHead(b, k, global, i)
    ensures IsHead(a + b + c, |a| + k, global, i)
  {
  }

  lemma SymLater(a: seq<Rec>, b: seq<Rec>, c: seq<Rec>, k: int, j: nat)
    requires IsSym(b, k, j)
    ensures IsSym(a + b + c, |a| + k, j)
  {
  }

  // ---- the six passes ----

  /** Where each of the six passes starts, and where the last ends. */
  datatype Starts = Starts(locals: int, globals: int, externs: int, undefs: int, others: int, end: int)

  function StartsOf(loc: seq<Entry>, glob: seq<Entry>, syms: seq<Symbol>): Starts
  {
    var a := EntryIndex(loc, All, 0, |loc|);
    var b := SymIndex(syms, LocalSyms, a, |syms|);
    var c := EntryIndex(glob, Defined, b, |glob|);
    var d := SymIndex(syms, ExternSyms, c, |syms|);
    var e := EntryIndex(glob, Undefined, d, |glob|);
    Starts(a, b, c, d, e, SymIndex(syms, OtherSyms, e, |syms|))
  }

  /** The index NumberEntries leaves in an item of the global list. */
  function GlobalIndex(glob: seq<Entry>, s: Starts, i: nat): int
    requires i < |glob|
  {
    if glob[i].UndefVar? then EntryIndex(glob, Undefined, s.undefs, i) else EntryIndex(glob, Defined, s.globals, i)
  }

  /** The index RenumberSyms leaves in a symbol that is not in a debug list. */
  function SymbolIndex(syms: seq<Symbol>, s: Starts, j: nat): Option<int>
    requires j < |syms|
  {
    if InClass(syms[j], LocalSyms) then Some(SymIndex(syms, LocalSyms, s.locals, j))
    else if InClass(syms[j], ExternSyms) then Some(SymIndex(syms, ExternSyms, s.externs, j))
    else if InClass(syms[j], OtherSyms) then Some(SymIndex(syms, OtherSyms, s.others, j))
    else None
  }

  /** dbg_outsymtab */
  function Stream(loc: seq<Entry>, glob: seq<Entry>, syms: seq<Symbol>, locIndex: seq<int>, globIndex: seq<int>,
          g: int): seq<Rec>
  {
    ListRecs(loc, false, All, locIndex, g, |loc|)
    + SymRecs(syms, LocalSyms, |syms|)
    + ListRecs(glob, true, Defined, globIndex, g, |glob|)
    + SymRecs(syms, ExternSyms, |syms|)
    + ListRecs(glob, true, Undefined, globIndex, g, |glob|)
    + SymRecs(syms, OtherSyms, |syms|)
  }

  /**
   Whatever the contents of the lists, every item and every remaining symbol is written at
   the position it was numbered with, and the count returned is the number of records.
   */
  lemma NumberingMatchesWriting(loc: seq<Entry>, glob: seq<Entry>, syms: seq<Symbol>, locIndex: seq<int>,
          globIndex: seq<int>, g: int)
    requires SectionsAgree(syms)
    ensures var s, out := StartsOf(loc, glob, syms), Stream(loc, glob, syms, locIndex, globIndex, g);
            && |out| == s.end
            && (forall i :: 0 <= i < |loc| ==> IsHead(out, EntryIndex(loc, All, 0, i), false, i))
            && (forall i :: 0 <= i < |glob| ==> IsHead(out, GlobalIndex(glob, s, i), true, i))
            && (forall j :: 0 <= j < |syms| && SymbolIndex(syms, s, j).Some? ==>
                  IsSym(out, SymbolIndex(syms, s, j).value, j))
  {
    hide ListRecs, SymRecs, EntryIndex, SymIndex, SectionsAgree, IsHead, IsSym;
    var s := StartsOf(loc, glob, syms);
    var a, b := ListRecs(loc, false, All, locIndex, g, |loc|), SymRecs(syms, LocalSyms, |syms|);
    var c, d := ListRecs(glob, true, Defined, globIndex, g, |glob|), SymRecs(syms, ExternSyms, |syms|);
    var e, f := ListRecs(glob, true, Undefined, globIndex, g, |glob|), SymRecs(syms, OtherSyms, |syms|);
    var out := Stream(loc, glob, syms, locIndex, globIndex, g);
    ListAgrees(loc, false, All, locIndex, g, |loc|, 0);
    SymsAgree(syms, LocalSyms, |syms|, s.locals);
    ListAgrees(glob, true, Defined, globIndex, g, |glob|, s.globals);
    SymsAgree(syms, ExternSyms, |syms|, s.externs);
    ListAgrees(glob, true, Undefined, globIndex, g, |glob|, s.undefs);
    SymsAgree(syms, OtherSyms, |syms|, s.others);
    forall i | 0 <= i < |loc| ensures IsHead(out, EntryIndex(loc, All, 0, i), false, i) {
      HeadLater([], a, b + c + d + e + f, EntryIndex(loc, All, 0, i), false, i);
      assert [] + a + (b + c + d + e + f) == out;
    }
    forall i | 0 <= i < |glob| ensures IsHead(out, GlobalIndex(glob, s, i), true, i) {
      if glob[i].UndefVar? {
        HeadLater(a + b + c + d, e, f, EntryIndex(glob, Undefined, s.undefs, i) - s.undefs, true, i);
      } else {
        HeadLater(a + b, c, d + e + f, EntryIndex(glob, Defined, s.globals, i) - s.globals, true, i);
        assert a + b + c + (d + e + f) == out;
      }
    }
    forall j | 0 <= j < |syms| && SymbolIndex(syms, s, j).Some? ensures IsSym(out, SymbolIndex(syms, s, j).value, j) {
      if InClass(syms[j], LocalSyms) {
        SymLater(a, b, c + d + e + f, SymIndex(syms, LocalSyms, s.locals, j) - s.locals, j);
        assert a + b + (c + d + e + f) == out;
      } else if InClass(syms[j], ExternSyms) {
        SymLater(a + b + c, d, e + f, SymIndex(syms, ExternSyms, s.externs, j) - s.externs, j);
        assert a + b + c + d + (e + f) == out;
      } else {
        SymLater(a + b + c + d + e, f, [], SymIndex(syms, OtherSyms, s.others, j) - s.others, j);
        assert a + b + c + d + e + f + [] == out;
      }
    }
  }

  // ---- references to the end of something ----

  /** The index after item i within its pass. */
  lemma IndexAfter(es: seq<Entry>, pass: Pass, start: int, i: nat)
    requires i < |es| && Selected(es[i], pass)
    ensures EntryIndex(es, pass, start, i + 1) == EntryIndex(es, pass, start, i) + Size(es[i])
  {
  }

  /** A procedure or block refers to just after its end record; that is where the item after the end is numbered. */
  lemma EndReference(loc: seq<Entry>, i: nat, end: nat, index: seq<int>, g: int)
    requires i < |loc| && end < |loc| == |index| && (loc[end].EndProc? || loc[end].BlockEnd?)
    requires forall k :: 0 <= k < |loc| ==> index[k] == EntryIndex(loc, All, 0, k)
    requires (loc[i].Proc? || loc[i].BlockStart?) && loc[i].end == Some(end)
    ensures EntryRecs(loc[i], false, i, index, g)[1] == Aux(EntryIndex(loc, All, 0, end + 1))
  {
    hide EntryIndex;
    IndexAfter(loc, All, 0, end);
  }

  /**
   The chain of .file records: each holds the place in the stream where the next one is
   written, and the last holds the place where the global part begins.
   */
  lemma FileReference(loc: seq<Entry>, glob: seq<Entry>, syms: seq<Symbol>, i: nat, locIndex: seq<int>,
          globIndex: seq<int>)
    requires i < |loc| == |locIndex| && loc[i].File? && SectionsAgree(syms)
    requires loc[i].next.Some? ==> loc[i].next.value < |loc|
    requires forall k :: 0 <= k < |loc| ==> locIndex[k] == EntryIndex(loc, All, 0, k)
    ensures var g := StartsOf(loc, glob, syms).globals;
            var out, head := Stream(loc, glob, syms, locIndex, globIndex, g),
                EntryRecs(loc[i], false, i, locIndex, g)[0];
            match loc[i].next
            case Some(j) => IsHead(out, head.value, false, j)
            case None =>
              head.value == |ListRecs(loc, false, All, locIndex, g, |loc|) + SymRecs(syms, LocalSyms, |syms|)|
  {
    hide EntryIndex, SymIndex, ListRecs, SymRecs, SectionsAgree, IsHead, IsSym;
    var s := StartsOf(loc, glob, syms);
    NumberingMatchesWriting(loc, glob, syms, locIndex, globIndex, s.globals);
    ListAgrees(loc, false, All, locIndex, s.globals, |loc|, 0);
    SymsAgree(syms, LocalSyms, |syms|, s.locals);
  }

  predicate IsTag(e: Entry) { e.Enumeration? || e.Aggregate? }

  lemma {:induction false} IndexGrows(es: seq<Entry>, pass: Pass, start: int, i: nat, j: nat)
    requires i <= j <= |es|
    ensures EntryIndex(es, pass, start, i) <= EntryIndex(es, pass, start, j)
    ensures EntryIndex(es, pass, start, i) == EntryIndex(es, pass, start, j)
            <==> forall k :: i <= k < j ==> !Selected(es[k], pass)
    decreases j
  {
    if i < j { IndexGrows(es, pass, start, i, j - 1); }
  }

  lemma {:induction false} SymIndexGrows(syms: seq<Symbol>, c: Class, start: int, j: nat)
    requires j <= |syms|
    ensures start <= SymIndex(syms, c, start, j)
    ensures start == SymIndex(syms, c, start, j) <==> forall k :: 0 <= k < j ==> !InClass(syms[k], c)
  {
    if j > 0 { SymIndexGrows(syms, c, start, j - 1); }
  }

  /** Nothing is numbered between a tag and the undefined variable that follows it in the list. */
  predicate NothingBetween(glob: seq<Entry>, syms: seq<Symbol>, i: nat)
    requires i < |glob|
  {
    && (forall k :: i < k < |glob| ==> glob[k].UndefVar?)
    && (forall k :: 0 <= k <= i ==> !glob[k].UndefVar?)
    && (forall j :: 0 <= j < |syms| ==> !InClass(syms[j], ExternSyms))
  }

  /**
   A tag of the global list refers to just after its .eos record exactly when there is an
   item after it, and that item is numbered in the same pass or nothing is in between.
   */
  lemma TagReference(loc: seq<Entry>, glob: seq<Entry>, syms: seq<Symbol>, i: nat, index: seq<int>, g: int)
    requires i < |glob| == |index| && IsTag(glob[i])
    requires forall k :: 0 <= k < |glob| ==> index[k] == GlobalIndex(glob, StartsOf(loc, glob, syms), k)
    ensures EntryRecs(glob[i], true, i, index, g)[1] == Aux(index[i] + Size(glob[i]))
            <==> i + 1 < |glob| && (glob[i + 1].UndefVar? ==> NothingBetween(glob, syms, i))
  {
    hide EntryIndex, SymIndex, InClass;
    var s := StartsOf(loc, glob, syms);
    IndexAfter(glob, Defined, s.globals, i);
    IndexGrows(loc, All, 0, 0, |loc|);
    IndexStart(loc, All, 0);
    SymIndexGrows(syms, LocalSyms, s.locals, |syms|);
    IndexStart(glob, Defined, s.globals);
    IndexGrows(glob, Defined, s.globals, 0, i);
    IndexStart(glob, Undefined, s.undefs);
    IndexGrows(glob, Undefined, s.undefs, 0, i + 1);
    IndexGrows(glob, Defined, s.globals, i + 1, |glob|);
    SymIndexGrows(syms, ExternSyms, s.externs, |syms|);
  }

  lemma IndexStart(es: seq<Entry>, pass: Pass, start: int)
    ensures EntryIndex(es, pass, start, 0) == start
  {
  }

  /** Before an undefined variable, which is numbered by a later pass, a tag's end reference goes astray. */
  lemma TagReferenceAstray()
    ensures var glob := [Aggregate([]), UndefVar(None, DbgType(0, false)), TypeDef(DbgType(0, false))];
            var s := StartsOf([], glob, []);
            var index := seq(3, i requires 0 <= i < 3 => GlobalIndex(glob, s, i));
            EntryRecs(glob[0], true, 0, index, 0)[1] == Aux(5) && index[0] + Size(glob[0]) == 4 == index[2]
  {
    var t := DbgType(0, false);
    var glob := [Aggregate([]), UndefVar(None, t), TypeDef(t)];
    assert EntryIndex(glob, Defined, 0, 1) == 4;
    assert EntryIndex(glob, Defined, 0, 2) == 4;
    assert EntryIndex(glob, Defined, 0, 3) == 5;
    assert EntryIndex(glob, Undefined, 5, 1) == 5;
  }

  // ---- the order of the table ----

  /** An item of one of the lists, or a symbol that no item stands for. */
  datatype Thing = Item(global: bool, place: nat) | Alone(place: nat)

  predicate Listed(x: Thing, loc: seq<Entry>, glob: seq<Entry>, syms: seq<Symbol>)
  {
    match x
    case Item(global, i) => i < |if global then glob else loc|
    case Alone(j) => j < |syms| && !syms[j].deleted && !(syms[j].defloc && syms[j].defext)
  }

  /**
   Local items come first, then local symbols, defined items, external symbols, undefined items
   and undefined symbols.
   */
  function Group(x: Thing, loc: seq<Entry>, glob: seq<Entry>, syms: seq<Symbol>): nat
    requires Listed(x, loc, glob, syms)
  {
    match x
    case Item(global, i) => if !global then 0 else if glob[i].UndefVar? then 4 else 2
    case Alone(j) => if syms[j].defloc then 1 else if syms[j].defext then 3 else 5
  }

  function IndexOf(x: Thing, loc: seq<Entry>, glob: seq<Entry>, syms: seq<Symbol>): int
    requires Listed(x, loc, glob, syms)
  {
    var s := StartsOf(loc, glob, syms);
    match x
    case Item(global, i) => if global then GlobalIndex(glob, s, i) else EntryIndex(loc, All, 0, i)
    case Alone(j) => SymbolIndex(syms, s, j).value
  }

  /** Where the passes start, and where the last one ends. */
  function PassStart(s: Starts, g: nat): int
  {
    match g
    case 0 => 0
    case 1 => s.locals
    case 2 => s.globals
    case 3 => s.externs
    case 4 => s.undefs
    case 5 => s.others
    case _ => s.end
  }

  lemma {:induction false} SymIndexMonotone(syms: seq<Symbol>, c: Class, start: int, j: nat, k: nat)
    requires j <= k <= |syms|
    ensures SymIndex(syms, c, start, j) <= SymIndex(syms, c, start, k)
    ensures j < k && InClass(syms[j], c) ==> SymIndex(syms, c, start, j) < SymIndex(syms, c, start, k)
    decreases k
  {
    if j < k { SymIndexMonotone(syms, c, start, j, k - 1); }
  }

  lemma ItemsApart(es: seq<Entry>, pass: Pass, start: int, i: nat, j: nat)
    requires i < j <= |es| && Selected(es[i], pass)
    ensures start <= EntryIndex(es, pass, start, i) < EntryIndex(es, pass, start, j)
  {
    hide EntryIndex, Size;
    IndexGrows(es, pass, start, 0, i);
    IndexStart(es, pass, start);
    IndexAfter(es, pass, start, i);
    IndexGrows(es, pass, start, i + 1, j);
  }

  /** Everything is numbered within its pass. */
  lemma WithinPass(x: Thing, loc: seq<Entry>, glob: seq<Entry>, syms: seq<Symbol>)
    requires Listed(x, loc, glob, syms)
    ensures var s, g := StartsOf(loc, glob, syms), Group(x, loc, glob, syms);
            PassStart(s, g) <= IndexOf(x, loc, glob, syms) < PassStart(s, g + 1)
  {
    hide EntryIndex, SymIndex, Size;
    var s := StartsOf(loc, glob, syms);
    match x
    case Item(global, i) =>
      if !global {
        ItemsApart(loc, All, 0, i, |loc|);
      } else if glob[i].UndefVar? {
        ItemsApart(glob, Undefined, s.undefs, i, |glob|);
      } else {
        ItemsApart(glob, Defined, s.globals, i, |glob|);
      }
    case Alone(j) =>
      var c := if syms[j].defloc then LocalSyms else if syms[j].defext then ExternSyms else OtherSyms;
      var start := if syms[j].defloc then s.locals else if syms[j].defext then s.externs else s.others;
      SymIndexMonotone(syms, c, start, j, |syms|);
      SymIndexGrows(syms, c, start, j);
  }

  lemma PassesGrow(loc: seq<Entry>, glob: seq<Entry>, syms: seq<Symbol>, g: nat, h: nat)
    requires g <= h <= 6
    ensures var s := StartsOf(loc, glob, syms); PassStart(s, g) <= PassStart(s, h)
  {
    hide EntryIndex, SymIndex;
    var s := StartsOf(loc, glob, syms);
    IndexStart(loc, All, 0);
    IndexGrows(loc, All, 0, 0, |loc|);
    SymIndexGrows(syms, LocalSyms, s.locals, |syms|);
    IndexStart(glob, Defined, s.globals);
    IndexGrows(glob, Defined, s.globals, 0, |glob|);
    SymIndexGrows(syms, ExternSyms, s.externs, |syms|);
    IndexStart(glob, Undefined, s.undefs);
    IndexGrows(glob, Undefined, s.undefs, 0, |glob|);
    SymIndexGrows(syms, OtherSyms, s.others, |syms|);
  }

  /** The groups follow one another in the table, and each keeps the order of its list. */
  lemma TableOrder(x: Thing, y: Thing, loc: seq<Entry>, glob: seq<Entry>, syms: seq<Symbol>)
    requires Listed(x, loc, glob, syms) && Listed(y, loc, glob, syms)
    requires var g, h := Group(x, loc, glob, syms), Group(y, loc, glob, syms);
             g < h || (g == h && x.place < y.place)
    ensures IndexOf(x, loc, glob, syms) < IndexOf(y, loc, glob, syms)
  {
    hide EntryIndex, SymIndex, StartsOf, Size;
    var g, h, s := Group(x, loc, glob, syms), Group(y, loc, glob, syms), StartsOf(loc, glob, syms);
    if g < h {
      hide PassStart, IndexOf, Group;
      WithinPass(x, loc, glob, syms);
      WithinPass(y, loc, glob, syms);
      PassesGrow(loc, glob, syms, g + 1, h);
    } else {
      var i, j := x.place, y.place;
      match x
      case Item(global, _) =>
        if !global {
          ItemsApart(loc, All, 0, i, j);
        } else if glob[i].UndefVar? {
          ItemsApart(glob, Undefined, s.undefs, i, j);
        } else {
          ItemsApart(glob, Defined, s.globals, i, j);
        }
      case Alone(_) =>
        var c := if syms[i].defloc then LocalSyms else if syms[i].defext then ExternSyms else OtherSyms;
        var start := if syms[i].defloc then s.locals else if syms[i].defext then s.externs else s.others;
        SymIndexMonotone(syms, c, start, i, j);
    }
  }

  // ---- the records of an item ----

  function Primaries(r: seq<Rec>): nat { if |r| == 0 then 0 else (if r[0].Aux? then 0 else 1) + Primaries(r[1..]) }

  predicate NoTwoAux(r: seq<Rec>) { forall k :: 0 < k < |r| && r[k].Aux? ==> !r[k - 1].Aux? }

  lemma {:induction false} PrimariesAppend(a: seq<Rec>, b: seq<Rec>)
    ensures Primaries(a + b) == Primaries(a) + Primaries(b)
  {
    if |a| == 0 {
      assert a + b == b;
    } else {
      assert (a + b)[1..] == a[1..] + b;
      PrimariesAppend(a[1..], b);
    }
  }

  lemma {:induction false} PartsShape(n: nat)
    ensures Primaries(Parts(n)) == n && forall k :: 0 <= k < n ==> Parts(n)[k] == Part
  {
    if n > 0 {
      PartsShape(n - 1);
      assert Parts(n)[1..] == Parts(n - 1);
    }
  }

  lemma {:induction false} MembersShape(ms: seq<DbgType>)
    ensures Primaries(Members(ms)) == |ms| && NoTwoAux(Members(ms)) && (|ms| > 0 ==> Members(ms)[0] == Part)
  {
    if |ms| > 0 {
      MembersShape(ms[1..]);
      PrimariesAppend([Part] + TypeAux(ms[0]), Members(ms[1..]));
      PrimariesAppend([Part], TypeAux(ms[0]));
    }
  }

  /**
   How many records an item has that stand for something: two for a procedure, one for each
   member of a tag and two for the tag itself, and one for the rest; a record has at most one
   auxiliary record, and the first has one unless it is a variable or type name without
   dimensions and tag.
   */
  lemma RecordShape(e: Entry, global: bool, i: nat, index: seq<int>, g: int)
    ensures var r := EntryRecs(e, global, i, index, g);
            && Primaries(r) == (match e case Proc(_, _) => 2 case Enumeration(n) => n + 2
                                        case Aggregate(ms) => |ms| + 2 case _ => 1)
            && NoTwoAux(r) && |r| >= 1
            && (|r| > 1 && r[1].Aux? <==> !(e.Var? || e.UndefVar? || e.TypeDef?) || e.typ.dims != 0 || e.typ.tagged)
            && (e.Proc? || IsTag(e) ==> |r| >= 4 && r[|r| - 1].Aux? && r[|r| - 2] == Part)
            && (!e.File? ==> r[0] == Head(global, i, 0))
  {
    match e
    case Enumeration(n) =>
      PartsShape(n);
      TagShape(Head(global, i, 0), Ref(index, Next(index, i), 0), Parts(n), Ref(index, Some(i), 0));
    case Aggregate(ms) =>
      MembersShape(ms);
      TagShape(Head(global, i, 0), Ref(index, Next(index, i), 0), Members(ms), Ref(index, Some(i), 0));
    case Proc(_, end) =>
      TagShape(Head(global, i, 0), Ref(index, end, 2), [], Ref(index, end, 2));
      assert EntryRecs(e, global, i, index, g)
          == [Head(global, i, 0), Aux(Ref(index, end, 2))] + [] + [Part, Aux(Ref(index, end, 2))];
    case Var(_, t) => PrimariesAppend([Head(global, i, 0)], TypeAux(t));
    case UndefVar(_, t) => PrimariesAppend([Head(global, i, 0)], TypeAux(t));
    case TypeDef(t) => PrimariesAppend([Head(global, i, 0)], TypeAux(t));
    case _ =>
      var r := EntryRecs(e, global, i, index, g);
      PairShape(r[0], r[1].ref);
      assert r == [r[0], Aux(r[1].ref)];
  }

  lemma PairShape(head: Rec, ref: int)
    requires !head.Aux?
    ensures Primaries([head, Aux(ref)]) == 1
  {
    PrimariesAppend([head], [Aux(ref)]);
    assert [head] + [Aux(ref)] == [head, Aux(ref)];
  }

  lemma TagShape(head: Rec, a: int, ms: seq<Rec>, b: int)
    requires head.Head? && NoTwoAux(ms) && (|ms| > 0 ==> ms[0] == Part)
    ensures var r := [head, Aux(a)] + ms + [Part, Aux(b)];
            Primaries(r) == Primaries(ms) + 2 && NoTwoAux(r) && r[|r| - 1].Aux? && r[|r| - 2] == Part
  {
    PairShape(head, a);
    PairShape(Part, b);
    PrimariesAppend([head, Aux(a)] + ms, [Part, Aux(b)]);
    PrimariesAppend([head, Aux(a)], ms);
    var r := [head, Aux(a)] + ms + [Part, Aux(b)];
    assert |ms| > 0 ==> r[2] == ms[0];
    assert r[|ms| + 2] == Part && r[|ms| + 3] == Aux(b);
    forall k | 0 < k < |r| && r[k].Aux? ensures !r[k - 1].Aux? {
      if 2 < k < |ms| + 2 { assert r[k] == ms[k - 2] && r[k - 1] == ms[k - 3]; }
    }
  }

  // ---- symbols that appear in a debug list ----

  function SymOf(e: Entry): Option<nat>
  {
    match e
    case Proc(s, _) => s
    case Var(s, _) => s
    case UndefVar(s, _) => s
    case _ => None
  }

  /** FixDbgList: an undefined variable whose symbol has been defined becomes a defined one. */
  function Fixed(e: Entry, syms: seq<Symbol>): Entry
  {
    if e.UndefVar? && e.sym.Some? && e.sym.value < |syms| && (syms[e.sym.value].defloc || syms[e.sym.value].defext)
    then Var(e.sym, e.typ) else e
  }

  function FixedList(es: seq<Entry>, syms: seq<Symbol>): seq<Entry>
  {
    seq(|es|, i requires 0 <= i < |es| => Fixed(es[i], syms))
  }

  /** Does the item stand for symbol j: a procedure or variable of that name? */
  predicate Mentions(e: Entry, j: nat) { (e.Proc? || e.Var? || e.UndefVar?) && e.sym == Some(j) }

  predicate Mentioned(es: seq<Entry>, j: nat) { exists i :: 0 <= i < |es| && Mentions(es[i], j) }

  lemma NamedIsMentioned(es: seq<Entry>, j: nat)
    ensures Named(es, j) <==> Mentioned(es, j)
  {
    assert forall i :: 0 <= i < |es| ==> (Mentions(es[i], j) <==> SymOf(es[i]) == Some(j));
  }

  /** Is the symbol that an item mentions defined, in this file or for others? */
  predicate IsDefined(e: Entry, syms: seq<Symbol>)
  {
    exists j: nat :: j < |syms| && Mentions(e, j) && (syms[j].defloc || syms[j].defext)
  }

  /**
   What becomes of an item: it is an undefined variable afterwards exactly when it was one and its
   symbol is still not defined; one that no longer is has become a variable with the same symbol
   and type; and everything else stays as it is.
   */
  ghost predicate Settled(was: Entry, now: Entry, syms: seq<Symbol>)
  {
    && (now.UndefVar? <==> was.UndefVar? && !IsDefined(was, syms))
    && (was.UndefVar? && !now.UndefVar? ==> now.Var? && now.sym == was.sym && now.typ == was.typ)
    && (!was.UndefVar? || now.UndefVar? ==> now == was)
  }

  lemma FixedSettled(e: Entry, syms: seq<Symbol>)
    ensures Settled(e, Fixed(e, syms), syms)
  {
    if e.UndefVar? && e.sym.Some? && e.sym.value < |syms| { assert Mentions(e, e.sym.value); }
  }

  ghost predicate AllSettled(was: seq<Entry>, now: seq<Entry>, syms: seq<Symbol>)
  {
    |now| == |was| && forall i :: 0 <= i < |was| ==> Settled(was[i], now[i], syms)
  }

  lemma FixedSettles(es: seq<Entry>, syms: seq<Symbol>)
    ensures AllSettled(es, FixedList(es, syms), syms)
  {
    hide Fixed, Settled;
    forall i | 0 <= i < |es| ensures Settled(es[i], FixedList(es, syms)[i], syms) { FixedSettled(es[i], syms); }
  }

  /** Marking symbols defines none. */
  lemma SettledMarked(was: seq<Entry>, now: seq<Entry>, es: seq<Entry>, syms: seq<Symbol>)
    requires AllSettled(was, now, Marked(es, syms))
    ensures AllSettled(was, now, syms)
  {
    hide Named, Mentions;
    var more := Marked(es, syms);
    forall i | 0 <= i < |was| ensures Settled(was[i], now[i], syms) {
      assert forall j :: 0 <= j < |syms| ==> more[j].defloc == syms[j].defloc && more[j].defext == syms[j].defext;
      if j: nat :| j < |more| && Mentions(was[i], j) && (more[j].defloc || more[j].defext) {
        assert syms[j].defloc || syms[j].defext;
      }
      if j: nat :| j < |syms| && Mentions(was[i], j) && (syms[j].defloc || syms[j].defext) {
        assert more[j].defloc || more[j].defext;
      }
      assert IsDefined(was[i], more) <==> IsDefined(was[i], syms);
    }
  }

  /** What becomes of the symbols: those mentioned by either list are marked, and nothing else changes. */
  ghost predicate MarksOnly(loc: seq<Entry>, glob: seq<Entry>, was: seq<Symbol>, now: seq<Symbol>)
  {
    |now| == |was| && forall j :: 0 <= j < |was| ==>
      && (now[j].deleted <==> was[j].deleted || Mentioned(loc, j) || Mentioned(glob, j))
      && now[j] == was[j].(deleted := now[j].deleted)
  }

  lemma MarkedOnly(loc: seq<Entry>, glob: seq<Entry>, syms: seq<Symbol>)
    ensures MarksOnly(loc, glob, syms, Marked(glob, Marked(loc, syms)))
  {
    hide Named, Mentioned;
    forall j: nat ensures (Named(loc, j) <==> Mentioned(loc, j)) && (Named(glob, j) <==> Mentioned(glob, j)) {
      NamedIsMentioned(loc, j);
      NamedIsMentioned(glob, j);
    }
  }

  predicate Named(es: seq<Entry>, j: nat) { exists i :: 0 <= i < |es| && SymOf(es[i]) == Some(j) }

  function Marked(es: seq<Entry>, syms: seq<Symbol>): (r: seq<Symbol>)
    ensures |r| == |syms|
  {
    seq(|syms|, j requires 0 <= j < |syms| => if Named(es, j) then syms[j].(deleted := true) else syms[j])
  }

  predicate ValidSyms(es: seq<Entry>, n: nat)
  {
    forall i :: 0 <= i < |es| && SymOf(es[i]).Some? ==> SymOf(es[i]).value < n
  }

  /** The index NumberEntries leaves in symbol j: that of the last item of the pass that names it. */
  function NamedIndex(es: seq<Entry>, pass: Pass, start: int, n: nat, j: nat, was: int): int
    requires n <= |es|
  {
    if n == 0 then was
    else if Selected(es[n - 1], pass) && SymOf(es[n - 1]) == Some(j) then EntryIndex(es, pass, start, n - 1)
    else NamedIndex(es, pass, start, n - 1, j, was)
  }

  /** Is k the index of an item that names symbol j? */
  ghost predicate NamesAt(es: seq<Entry>, pass: Pass, start: int, j: nat, k: int)
  {
    exists i :: 0 <= i < |es| && Selected(es[i], pass) && SymOf(es[i]) == Some(j) && k == EntryIndex(es, pass, start, i)
  }

  lemma {:induction false} NamedIndexNames(es: seq<Entry>, pass: Pass, start: int, n: nat, j: nat, was: int)
    requires n <= |es|
    ensures NamesAt(es, pass, start, j, NamedIndex(es, pass, start, n, j, was))
         || (NamedIndex(es, pass, start, n, j, was) == was
             && forall i :: 0 <= i < n && Selected(es[i], pass) ==> SymOf(es[i]) != Some(j))
  {
    hide EntryIndex;
    if n > 0 && !(Selected(es[n - 1], pass) && SymOf(es[n - 1]) == Some(j)) {
      NamedIndexNames(es, pass, start, n - 1, j, was);
    }
  }

  // ---- as the source writes it ----

  /** FixDbgList */
  method FixDbgList(es: seq<Entry>, syms: seq<Symbol>) returns (fixed: seq<Entry>, marked: seq<Symbol>)
    requires ValidSyms(es, |syms|)
    ensures fixed == FixedList(es, syms) && marked == Marked(es, syms)
    ensures AllSettled(es, fixed, syms) && MarksOnly(es, es, syms, marked)
  {
    fixed, marked := [], syms;
    var i := 0;
    while i < |es|
      invariant i <= |es| && fixed == FixedList(es[..i], syms) && |marked| == |syms|
      invariant forall j :: 0 <= j < |syms| ==>
                  marked[j] == if Named(es[..i], j) then syms[j].(deleted := true) else syms[j]
    {
      var e := es[i];
      FixedNext(es, syms, i);
      NamedNext(es, i);
      var s := SymOf(e);
      if e.UndefVar? && s.Some? && (syms[s.value].defloc || syms[s.value].defext) { e := Var(e.sym, e.typ); }
      fixed := fixed + [e];
      if s.Some? { marked := marked[s.value := marked[s.value].(deleted := true)]; }
      i := i + 1;
    }
    assert es[..|es|] == es;
    FixedSettles(es, syms);
    MarkedAlone(es, syms);
  }

  lemma MarkedAlone(es: seq<Entry>, syms: seq<Symbol>)
    ensures MarksOnly(es, es, syms, Marked(es, syms))
  {
    hide Named, Mentioned;
    forall j: nat ensures Named(es, j) <==> Mentioned(es, j) { NamedIsMentioned(es, j); }
  }

  lemma FixedNext(es: seq<Entry>, syms: seq<Symbol>, i: nat)
    requires i < |es|
    ensures FixedList(es[..i + 1], syms) == FixedList(es[..i], syms) + [Fixed(es[i], syms)]
  {
    hide Fixed;
  }

  lemma NamedNext(es: seq<Entry>, i: nat)
    requires i < |es|
    ensures forall j: nat :: Named(es[..i + 1], j) <==> Named(es[..i], j) || SymOf(es[i]) == Some(j)
  {
    forall j: nat ensures Named(es[..i + 1], j) <==> Named(es[..i], j) || SymOf(es[i]) == Some(j) {
      if Named(es[..i], j) {
        var k :| 0 <= k < i && SymOf(es[..i][k]) == Some(j);
        assert SymOf(es[..i + 1][k]) == Some(j);
      }
      if SymOf(es[i]) == Some(j) { assert SymOf(es[..i + 1][i]) == Some(j); }
      if Named(es[..i + 1], j) {
        var k :| 0 <= k < i + 1 && SymOf(es[..i + 1][k]) == Some(j);
        assert k < i ==> SymOf(es[..i][k]) == Some(j);
      }
    }
  }

  /** NumberEntries, with RenumberExtRef. */
  method NumberEntries(es: seq<Entry>, index: array<int>, extIndex: array<int>, start: int,
          pass: Pass) returns (next: int)
    requires index.Length == |es| && ValidSyms(es, extIndex.Length) && index != extIndex
    modifies index, extIndex
    ensures next == EntryIndex(es, pass, start, |es|)
    ensures forall i :: 0 <= i < |es| ==>
              index[i] == if Selected(es[i], pass) then EntryIndex(es, pass, start, i) else old(index[i])
    ensures forall j :: 0 <= j < extIndex.Length ==>
            extIndex[j] == NamedIndex(es, pass, start, |es|, j, old(extIndex[j]))
  {
    hide EntryIndex, Size, NamedIndex, SymOf, Selected;
    next := start;
    var i := 0;
    ListStep(es, false, pass, [], 0, 0, start);
    NamedStart(es, pass, start);
    while i < |es|
      invariant i <= |es| && next == EntryIndex(es, pass, start, i)
      invariant forall k :: 0 <= k < |es| ==>
                  index[k] == if k < i && Selected(es[k], pass) then EntryIndex(es, pass, start, k) else old(index[k])
      invariant forall j :: 0 <= j < extIndex.Length ==>
                extIndex[j] == NamedIndex(es, pass, start, i, j, old(extIndex[j]))
    {
      ListStep(es, false, pass, [], 0, i + 1, start);
      NamedStep(es, pass, start, i);
      if Selected(es[i], pass) {
        index[i] := next;
        var s := SymOf(es[i]);
        if s.Some? { extIndex[s.value] := next; }
        next := next + Size(es[i]);
      }
      i := i + 1;
    }
  }

  lemma NamedStart(es: seq<Entry>, pass: Pass, start: int)
    ensures forall j: nat, was :: NamedIndex(es, pass, start, 0, j, was) == was
  {
  }

  lemma NamedStep(es: seq<Entry>, pass: Pass, start: int, i: nat)
    requires i < |es|
    ensures forall j: nat, was
              {:trigger NamedIndex(es, pass, start, i + 1, j, was)} {:trigger NamedIndex(es, pass, start, i, j, was)} ::
              NamedIndex(es, pass, start, i + 1, j, was)
              == if Selected(es[i], pass) && SymOf(es[i]) == Some(j) then EntryIndex(es, pass, start, i)
                 else NamedIndex(es, pass, start, i, j, was)
  {
    hide EntryIndex;
    forall j: nat, was
      ensures NamedIndex(es, pass, start, i + 1, j, was)
              == if Selected(es[i], pass) && SymOf(es[i]) == Some(j) then EntryIndex(es, pass, start, i)
                 else NamedIndex(es, pass, start, i, j, was)
    {
      NamedUnfold(es, pass, start, i + 1, j, was);
    }
  }

  lemma NamedUnfold(es: seq<Entry>, pass: Pass, start: int, n: nat, j: nat, was: int)
    requires 0 < n <= |es|
    ensures NamedIndex(es, pass, start, n, j, was)
            == if Selected(es[n - 1], pass) && SymOf(es[n - 1]) == Some(j) then EntryIndex(es, pass, start, n - 1)
               else NamedIndex(es, pass, start, n - 1, j, was)
  {
  }

  /** RenumberSyms */
  method RenumberSyms(syms: seq<Symbol>, extIndex: array<int>, start: int, c: Class) returns (next: int)
    requires extIndex.Length == |syms|
    modifies extIndex
    ensures next == SymIndex(syms, c, start, |syms|)
    ensures forall j :: 0 <= j < |syms| ==>
              extIndex[j] == if InClass(syms[j], c) then SymIndex(syms, c, start, j) else old(extIndex[j])
  {
    next := start;
    var j := 0;
    while j < |syms|
      invariant j <= |syms| && next == SymIndex(syms, c, start, j)
      invariant forall k :: 0 <= k < |syms| ==>
                  extIndex[k] == if k < j && InClass(syms[k], c) then SymIndex(syms, c, start, k) else old(extIndex[k])
    {
      if InClass(syms[j], c) {
        extIndex[j] := next;
        next := next + 1;
        if syms[j].section { next := next + 1; }
      }
      j := j + 1;
    }
  }

  /** WriteEntries */
  method WriteEntries(es: seq<Entry>, global: bool, pass: Pass, index: seq<int>, globIndex: int,
          before: seq<Rec>) returns (out: seq<Rec>)
    ensures out == before + ListRecs(es, global, pass, index, globIndex, |es|)
  {
    hide EntryRecs;
    out := before;
    var i := 0;
    while i < |es|
      invariant i <= |es| && out == before + ListRecs(es, global, pass, index, globIndex, i)
    {
      if Selected(es[i], pass) { out := out + EntryRecs(es[i], global, i, index, globIndex); }
      i := i + 1;
    }
  }

  /** obj_outsymtab */
  method OutSymtab(syms: seq<Symbol>, c: Class, before: seq<Rec>) returns (out: seq<Rec>)
    ensures out == before + SymRecs(syms, c, |syms|)
  {
    out := before;
    var j := 0;
    while j < |syms|
      invariant j <= |syms| && out == before + SymRecs(syms, c, j)
    {
      if InClass(syms[j], c) {
        out := out + [Sym(j)];
        if syms[j].segment { out := out + [Aux(0)]; }
      }
      j := j + 1;
    }
  }

  lemma FixedSyms(es: seq<Entry>, syms: seq<Symbol>)
    ensures forall i :: 0 <= i < |es| ==> SymOf(FixedList(es, syms)[i]) == SymOf(es[i])
    ensures forall j: nat :: Named(FixedList(es, syms), j) <==> Named(es, j)
    ensures forall n :: ValidSyms(es, n) ==> ValidSyms(FixedList(es, syms), n)
  {
    var fs := FixedList(es, syms);
    assert forall i :: 0 <= i < |es| ==> SymOf(fs[i]) == SymOf(es[i]);
    hide FixedList;
    forall j: nat ensures Named(fs, j) <==> Named(es, j) {
      if Named(es, j) { var i :| 0 <= i < |es| && SymOf(es[i]) == Some(j); assert SymOf(fs[i]) == Some(j); }
    }
  }

  /** Every symbol named by an item has been marked. */
  predicate AllMarked(es: seq<Entry>, syms: seq<Symbol>)
  {
    forall j :: 0 <= j < |syms| && Named(es, j) ==> syms[j].deleted
  }

  lemma MarkedTwice(loc: seq<Entry>, glob: seq<Entry>, syms: seq<Symbol>)
    ensures AllMarked(loc, Marked(glob, Marked(loc, syms))) && AllMarked(glob, Marked(glob, Marked(loc, syms)))
  {
    hide Named;
  }

  /** Which pass an item of the lists was numbered by, and so which index names symbol j. */
  ghost predicate NamedSomewhere(loc: seq<Entry>, glob: seq<Entry>, s: Starts, j: nat, k: int)
  {
    NamesAt(loc, All, 0, j, k) || NamesAt(glob, Defined, s.globals, j, k) || NamesAt(glob, Undefined, s.undefs, j, k)
  }

  /** The index left in symbol j by the six passes. */
  lemma ExternalIndex(loc: seq<Entry>, glob: seq<Entry>, syms: seq<Symbol>, j: nat, e0: int, e1: int, e2: int, e3: int,
          e4: int, e5: int, e6: int)
    requires j < |syms| && AllMarked(loc, syms) && AllMarked(glob, syms)
    requires var s := StartsOf(loc, glob, syms);
             && e1 == NamedIndex(loc, All, 0, |loc|, j, e0)
             && e2 == (if InClass(syms[j], LocalSyms) then SymIndex(syms, LocalSyms, s.locals, j) else e1)
             && e3 == NamedIndex(glob, Defined, s.globals, |glob|, j, e2)
             && e4 == (if InClass(syms[j], ExternSyms) then SymIndex(syms, ExternSyms, s.externs, j) else e3)
             && e5 == NamedIndex(glob, Undefined, s.undefs, |glob|, j, e4)
             && e6 == (if InClass(syms[j], OtherSyms) then SymIndex(syms, OtherSyms, s.others, j) else e5)
    ensures var s := StartsOf(loc, glob, syms);
            && (SymbolIndex(syms, s, j).Some? ==> e6 == SymbolIndex(syms, s, j).value)
            && (Named(loc, j) || Named(glob, j) ==> NamedSomewhere(loc, glob, s, j, e6))
  {
    hide EntryIndex, SymIndex, NamedIndex, NamesAt, StartsOf;
    var s := StartsOf(loc, glob, syms);
    Unnamed(loc, All, 0, j, e0);
    Unnamed(glob, Defined, s.globals, j, e2);
    Unnamed(glob, Undefined, s.undefs, j, e4);
    if Named(glob, j) { SomePass(glob, j); }
  }

  predicate NamedIn(es: seq<Entry>, pass: Pass, j: nat)
  {
    exists i :: 0 <= i < |es| && Selected(es[i], pass) && SymOf(es[i]) == Some(j)
  }

  lemma Unnamed(es: seq<Entry>, pass: Pass, start: int, j: nat, was: int)
    ensures if NamedIn(es, pass, j) then NamesAt(es, pass, start, j, NamedIndex(es, pass, start, |es|, j, was))
            else NamedIndex(es, pass, start, |es|, j, was) == was
    ensures NamedIn(es, pass, j) ==> Named(es, j)
    ensures pass == All && Named(es, j) ==> NamedIn(es, pass, j)
  {
    hide EntryIndex, NamedIndex;
    NamedIndexNames(es, pass, start, |es|, j, was);
    if pass == All && Named(es, j) {
      var i :| 0 <= i < |es| && SymOf(es[i]) == Some(j);
      assert Selected(es[i], pass);
    }
  }

  lemma SomePass(es: seq<Entry>, j: nat)
    requires Named(es, j)
    ensures NamedIn(es, Defined, j) || NamedIn(es, Undefined, j)
  {
    var i :| 0 <= i < |es| && SymOf(es[i]) == Some(j);
    if es[i].UndefVar? { assert Selected(es[i], Undefined); } else { assert Selected(es[i], Defined); }
  }

  /** The lists, the symbols and the indices written into them. */
  class DebugTable {
    var loc: seq<Entry>
    var glob: seq<Entry>
    var syms: seq<Symbol>
    const locIndex: array<int>
    const globIndex: array<int>
    const extIndex: array<int>
    var globStart: int

    ghost predicate Valid()
      reads this
    {
      && locIndex.Length == |loc| && globIndex.Length == |glob| && extIndex.Length == |syms|
      && locIndex != globIndex && locIndex != extIndex && globIndex != extIndex
      && ValidSyms(loc, |syms|) && ValidSyms(glob, |syms|)
    }

    constructor (loc: seq<Entry>, glob: seq<Entry>, syms: seq<Symbol>)
      requires ValidSyms(loc, |syms|) && ValidSyms(glob, |syms|)
      ensures Valid() && this.loc == loc && this.glob == glob && this.syms == syms
      ensures fresh(locIndex) && fresh(globIndex) && fresh(extIndex)
    {
      this.loc, this.glob, this.syms := loc, glob, syms;
      locIndex := new int[|loc|](_ => 0);
      globIndex := new int[|glob|](_ => 0);
      extIndex := new int[|syms|](_ => 0);
      globStart := 0;
    }

    /** The two calls of FixDbgList in dbg_fixup. */
    method Fix()
      requires Valid()
      modifies this`loc, this`glob, this`syms
      ensures Valid()
      ensures loc == FixedList(old(loc), old(syms)) && glob == FixedList(old(glob), Marked(old(loc), old(syms)))
      ensures syms == Marked(old(glob), Marked(old(loc), old(syms)))
      ensures AllSettled(old(loc), loc, old(syms)) && AllSettled(old(glob), glob, old(syms))
      ensures MarksOnly(old(loc), old(glob), old(syms), syms)
      ensures AllMarked(loc, syms) && AllMarked(glob, syms)
    {
      hide FixedList, Named, AllMarked, ValidSyms, AllSettled, MarksOnly, Marked;
      ghost var loc0, glob0, syms0 := loc, glob, syms;
      FixedSyms(loc, syms);
      loc, syms := FixDbgList(loc, syms);
      FixedSyms(glob, syms);
      glob, syms := FixDbgList(glob, syms);
      FixedLength(loc0, syms0);
      FixedLength(glob0, Marked(loc0, syms0));
      MarkedTwice(loc0, glob0, syms0);
      SameMarks(loc0, loc, syms);
      SameMarks(glob0, glob, syms);
      FixedSettles(loc0, syms0);
      FixedSettles(glob0, Marked(loc0, syms0));
      SettledMarked(glob0, glob, loc0, syms0);
      MarkedOnly(loc0, glob0, syms0);
    }

    /** The six numbering passes of dbg_fixup. */
    method Number() returns (count: int)
      requires Valid() && AllMarked(loc, syms) && AllMarked(glob, syms)
      modifies this`globStart, locIndex, globIndex, extIndex
      ensures Valid()
      ensures var s := StartsOf(loc, glob, syms);
              && count == s.end && globStart == s.globals
              && (forall i :: 0 <= i < |loc| ==> locIndex[i] == EntryIndex(loc, All, 0, i))
              && (forall i :: 0 <= i < |glob| ==> globIndex[i] == GlobalIndex(glob, s, i))
              && (forall j :: 0 <= j < |syms| ==>
                    && (SymbolIndex(syms, s, j).Some? ==> extIndex[j] == SymbolIndex(syms, s, j).value)
                    && (Named(loc, j) || Named(glob, j) ==> NamedSomewhere(loc, glob, s, j, extIndex[j])))
    {
      hide EntryIndex, SymIndex, NamedIndex, Named, NamedSomewhere, InClass, AllMarked;
      ghost var ext0 := extIndex[..];
      var index := NumberEntries(loc, locIndex, extIndex, 0, All);
      ghost var ext1 := extIndex[..];
      index := RenumberSyms(syms, extIndex, index, LocalSyms);
      globStart := index;
      ghost var ext2 := extIndex[..];
      index := NumberEntries(glob, globIndex, extIndex, index, Defined);
      ghost var ext3 := extIndex[..];
      index := RenumberSyms(syms, extIndex, index, ExternSyms);
      ghost var ext4 := extIndex[..];
      index := NumberEntries(glob, globIndex, extIndex, index, Undefined);
      ghost var ext5 := extIndex[..];
      count := RenumberSyms(syms, extIndex, index, OtherSyms);
      ghost var s := StartsOf(loc, glob, syms);
      forall j | 0 <= j < |syms|
        ensures SymbolIndex(syms, s, j).Some? ==> extIndex[j] == SymbolIndex(syms, s, j).value
        ensures Named(loc, j) || Named(glob, j) ==> NamedSomewhere(loc, glob, s, j, extIndex[j])
      {
        ExternalIndex(loc, glob, syms, j, ext0[j], ext1[j], ext2[j], ext3[j], ext4[j], ext5[j], extIndex[j]);
      }
    }

    /** dbg_outsymtab */
    method Write() returns (out: seq<Rec>)
      requires Valid()
      ensures out == Stream(loc, glob, syms, locIndex[..], globIndex[..], globStart)
    {
      hide ListRecs, SymRecs;
      out := WriteEntries(loc, false, All, locIndex[..], globStart, []);
      out := OutSymtab(syms, LocalSyms, out);
      out := WriteEntries(glob, true, Defined, globIndex[..], globStart, out);
      out := OutSymtab(syms, ExternSyms, out);
      out := WriteEntries(glob, true, Undefined, globIndex[..], globStart, out);
      out := OutSymtab(syms, OtherSyms, out);
    }

    /** dbg_fixup, then dbg_outsymtab: what was promised to relocations is what is in the file. */
    method Emit() returns (count: int, out: seq<Rec>)
      requires Valid() && SectionsAgree(Marked(glob, Marked(loc, syms)))
      modifies this, locIndex, globIndex, extIndex
      ensures Valid() && count == |out|
      ensures AllSettled(old(loc), loc, old(syms)) && AllSettled(old(glob), glob, old(syms))
      ensures MarksOnly(old(loc), old(glob), old(syms), syms)
      ensures forall i :: 0 <= i < |loc| ==> IsHead(out, locIndex[i], false, i)
      ensures forall i :: 0 <= i < |glob| ==> IsHead(out, globIndex[i], true, i)
      ensures forall j :: 0 <= j < |syms| && !syms[j].deleted && !(syms[j].defloc && syms[j].defext) ==>
              IsSym(out, extIndex[j], j)
      ensures forall j :: 0 <= j < |syms| && (Mentioned(loc, j) || Mentioned(glob, j)) ==>
                exists global, i ::
                    0 <= i < |if global then glob else loc| && Mentions((if global then glob else loc)[i], j)
                                    && IsHead(out, extIndex[j], global, i)
    {
      hide Named, Mentioned, Mentions, SymOf, Marked, FixedList, SectionsAgree, EntryIndex, SymIndex, ListRecs,
          SymRecs, AllMarked, NamedSomewhere, IsHead, IsSym, AllSettled, MarksOnly;
      Fix();
      count := Number();
      out := Write();
      ghost var s := StartsOf(loc, glob, syms);
      NumberingMatchesWriting(loc, glob, syms, locIndex[..], globIndex[..], globStart);
      forall j | 0 <= j < |syms| && (Mentioned(loc, j) || Mentioned(glob, j))
        ensures exists global, i ::
                0 <= i < |if global then glob else loc| && Mentions((if global then glob else loc)[i], j)
                                    && IsHead(out, extIndex[j], global, i)
      {
        NamedIsMentioned(loc, j);
        NamedIsMentioned(glob, j);
        NamedHead(loc, glob, syms, s, out, j, extIndex[j]);
      }
    }
  }

  lemma FixedLength(es: seq<Entry>, syms: seq<Symbol>)
    ensures |FixedList(es, syms)| == |es|
  {
  }

  lemma SameMarks(es: seq<Entry>, fs: seq<Entry>, syms: seq<Symbol>)
    requires AllMarked(es, syms) && forall j: nat :: Named(fs, j) <==> Named(es, j)
    ensures AllMarked(fs, syms)
  {
    hide Named;
  }

  /** A symbol named by an item carries the position of such an item. */
  lemma NamedHead(loc: seq<Entry>, glob: seq<Entry>, syms: seq<Symbol>, s: Starts, out: seq<Rec>, j: nat, k: int)
    requires s == StartsOf(loc, glob, syms) && NamedSomewhere(loc, glob, s, j, k)
    requires forall i :: 0 <= i < |loc| ==> IsHead(out, EntryIndex(loc, All, 0, i), false, i)
    requires forall i :: 0 <= i < |glob| ==> IsHead(out, GlobalIndex(glob, s, i), true, i)
    ensures exists global, i ::
            0 <= i < |if global then glob else loc| && Mentions((if global then glob else loc)[i], j)
                                && IsHead(out, k, global, i)
  {
    hide EntryIndex, StartsOf, IsHead;
    if NamesAt(loc, All, 0, j, k) {
      var i :| 0 <= i < |loc| && Selected(loc[i], All) && SymOf(loc[i]) == Some(j) && k == EntryIndex(loc, All, 0, i);
      assert IsHead(out, k, false, i);
    } else if NamesAt(glob, Defined, s.globals, j, k) {
      var i :| 0 <= i < |glob| && Selected(glob[i], Defined) && SymOf(glob[i]) == Some(j)
          && k == EntryIndex(glob, Defined, s.globals, i);
      assert GlobalIndex(glob, s, i) == k;
      assert IsHead(out, k, true, i);
    } else {
      var i :| 0 <= i < |glob| && Selected(glob[i], Undefined) && SymOf(glob[i]) == Some(j)
          && k == EntryIndex(glob, Undefined, s.undefs, i);
      assert GlobalIndex(glob, s, i) == k;
      assert IsHead(out, k, true, i);
    }
  }
}
