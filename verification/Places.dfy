/**
 When stores that miss their places are harmless.  A store does its work if the word meant
 for some place gets there, be it from another register recorded with the same value; so a
 group of stores is right, in every state that matches the cache, exactly when every place
 is reached by a register alike to the one meant for it.
 */
module Places {
  import opened Words
  import opened Arm
  import opened Immediates
  import opened KnownValues
  import opened Transfers
  import opened Traces

  /** Surely the same contents: one register, or two recorded with one value. */
  predicate Alike(known: Known, r: Reg, x: Reg)
  {
    r == x || (known[r].Some? && known[r] == known[x])
  }

  /** Does x reach the place meant for r with what is meant for it? */
  predicate Serves(q: Queue, err: map<Reg, Word>, known: Known, r: Reg, x: Reg)
    requires r in q
  {
    x in q && x in err && Wrap(q[x] + err[x]) == Wrap(q[r]) && Alike(known, r, x)
  }

  /** Some place is not given what is meant for it. */
  predicate Misplaces(q: Queue, err: map<Reg, Word>, known: Known)
  {
    exists r: Reg :: r in q && Deserted(q, err, known, r)
  }

  predicate Deserted(q: Queue, err: map<Reg, Word>, known: Known, r: Reg)
    requires r in q
  {
    forall x: Reg :: !Serves(q, err, known, r, x)
  }

  // ---- then every register serves some place ----

  ghost predicate OneToOne(g: map<Reg, Reg>)
  {
    forall a: Reg, b: Reg :: a in g && b in g && g[a] == g[b] ==> a == b
  }

  lemma {:induction false} InjectiveSize(g: map<Reg, Reg>)
    requires OneToOne(g)
    ensures |g.Values| == |g.Keys|
    decreases |g|
  {
    if g.Keys == {} {
      assert g.Values == {};
    } else {
      var a :| a in g.Keys;
      var h := g - {a};
      InjectiveSize(h);
      assert g.Keys == h.Keys + {a};
      assert g.Values == h.Values + {g[a]} by {
        forall v | v in g.Values ensures v in h.Values + {g[a]} {
          var k :| k in g && g[k] == v;
          if k != a { assert k in h && h[k] == v; }
        }
        forall v | v in h.Values ensures v in g.Values {
          var k :| k in h && h[k] == v;
          assert g[k] == v;
        }
      }
      assert g[a] !in h.Values;
    }
  }

  lemma SubsetFull(s: set<Reg>, t: set<Reg>)
    requires s <= t && |s| == |t|
    ensures s == t
  {
    assert t == s + (t - s);
    assert |t| == |s| + |t - s|;
  }

  ghost function Server(q: Queue, err: map<Reg, Word>, known: Known, r: Reg): (x: Reg)
    requires r in q && !Deserted(q, err, known, r)
    ensures Serves(q, err, known, r, x)
  {
    var x: Reg :| Serves(q, err, known, r, x);
    x
  }

  lemma ApartSame(q: Queue, a: Reg, b: Reg)
    requires Apart(q) && a in q && b in q && Wrap(q[a]) == Wrap(q[b])
    ensures a == b
  {
  }

  /** One register serves one place at most. */
  lemma OneMaster(q: Queue, err: map<Reg, Word>, known: Known, a: Reg, b: Reg, x: Reg)
    requires Apart(q) && a in q && b in q && Serves(q, err, known, a, x) && Serves(q, err, known, b, x)
    ensures a == b
  {
    hide Apart, Wrap, Alike;
    ApartSame(q, a, b);
  }

  ghost function Servers(q: Queue, err: map<Reg, Word>, known: Known): (g: map<Reg, Reg>)
    requires !Misplaces(q, err, known)
    ensures g.Keys == q.Keys && forall r: Reg :: r in g ==> Serves(q, err, known, r, g[r])
  {
    hide Serves;
    map r: Reg | r in q :: Server(q, err, known, r)
  }

  /** A one-to-one choice from a finite set into itself takes everything. */
  lemma TakesAll(g: map<Reg, Reg>, x: Reg) returns (r: Reg)
    requires OneToOne(g) && g.Values <= g.Keys && x in g
    ensures r in g && g[r] == x
  {
    hide OneToOne;
    InjectiveSize(g);
    SubsetFull(g.Values, g.Keys);
    assert x in g.Values;
    r :| r in g && g[r] == x;
  }

  lemma EveryoneServes(q: Queue, err: map<Reg, Word>, known: Known, x: Reg) returns (r: Reg)
    requires Apart(q) && !Misplaces(q, err, known) && x in q
    ensures r in q && Serves(q, err, known, r, x)
  {
    hide Misplaces, Apart, Serves, Servers, OneToOne;
    var g := Servers(q, err, known);
    ServersIn(q, err, known, g);
    r := TakesAll(g, x);
    assert Serves(q, err, known, r, g[r]);
  }

  lemma ServersIn(q: Queue, err: map<Reg, Word>, known: Known, g: map<Reg, Reg>)
    requires Apart(q) && g.Keys == q.Keys && forall r: Reg :: r in g ==> Serves(q, err, known, r, g[r])
    ensures g.Values <= q.Keys && OneToOne(g)
  {
    hide Wrap, Alike, Apart;
    assert g.Values <= q.Keys;
    hide Serves;
    forall a: Reg, b: Reg | a in g && b in g && g[a] == g[b] ensures a == b {
      OneMaster(q, err, known, a, b, g[a]);
    }
  }

  /** If no place is deserted, memory is what the queue means. */
  lemma ServedStored(q: Queue, err: map<Reg, Word>, known: Known, b: Word, regs: Regs, mem: Mem, m: Mem)
    requires Apart(q) && !Misplaces(q, err, known) && Wrote(q, q.Keys, err, b, regs, mem, m)
    requires forall r: Reg :: r in q && known[r].Some? ==> regs[r] == known[r].value
    ensures m == StoreAll(q, b, regs, mem)
  {
    hide StoreAll, Addr, Apart, Wrap, Misplaces, Reaches;
    forall r: Reg | r in q ensures Addr(b, q[r]) in m && m[Addr(b, q[r])] == regs[r] {
      ServedCell(q, err, known, b, regs, mem, m, r);
    }
    forall a: Word | Untouched(q, b, a) ensures (a in m <==> a in mem) && (a in m ==> m[a] == mem[a]) {
      UnservedCell(q, err, known, b, regs, mem, m, a);
    }
    StoresStored(q, b, regs, mem);
    StoredUnique(q, b, regs, mem, m, StoreAll(q, b, regs, mem));
  }

  lemma ServedCell(q: Queue, err: map<Reg, Word>, known: Known, b: Word, regs: Regs, mem: Mem, m: Mem, r: Reg)
    requires Apart(q) && !Misplaces(q, err, known) && Wrote(q, q.Keys, err, b, regs, mem, m) && r in q
    requires forall r: Reg :: r in q && known[r].Some? ==> regs[r] == known[r].value
    ensures Addr(b, q[r]) in m && m[Addr(b, q[r])] == regs[r]
  {
    hide Addr, Wrap, Apart, Misplaces, Reaches;
    var a := Addr(b, q[r]);
    ServerReaches(q, err, known, b, r);
    assert Cell(q, q.Keys, err, b, regs, mem, m, a);
    var x: Reg :| x in q && Reaches(q, err, b, x, a) && m[a] == regs[x];
    var r2 := EveryoneServes(q, err, known, x);
    OwnPlace(q, err, known, b, r, r2, x);
  }

  lemma ServerReaches(q: Queue, err: map<Reg, Word>, known: Known, b: Word, r: Reg)
    requires !Misplaces(q, err, known) && r in q
    ensures exists x: Reg :: x in q && Reaches(q, err, b, x, Addr(b, q[r]))
  {
    hide Addr, Wrap;
    assert !Deserted(q, err, known, r);
    var x: Reg :| Serves(q, err, known, r, x);
    SamePlace(b, q[x] + err[x], q[r]);
    assert Reaches(q, err, b, x, Addr(b, q[r]));
  }

  /** Whoever reaches the place of r and serves some place, serves r. */
  lemma OwnPlace(q: Queue, err: map<Reg, Word>, known: Known, b: Word, r: Reg, r2: Reg, x: Reg)
    requires Apart(q) && r in q && r2 in q && Serves(q, err, known, r2, x) && Reaches(q, err, b, x, Addr(b, q[r]))
    ensures r == r2
  {
    hide Addr, Wrap, Apart, Alike;
    SamePlace(b, q[x] + err[x], q[r]);
    ApartSame(q, r, r2);
  }

  lemma UnservedCell(q: Queue, err: map<Reg, Word>, known: Known, b: Word, regs: Regs, mem: Mem, m: Mem, a: Word)
    requires Apart(q) && !Misplaces(q, err, known) && Wrote(q, q.Keys, err, b, regs, mem, m) && Untouched(q, b, a)
    ensures (a in m <==> a in mem) && (a in m ==> m[a] == mem[a])
  {
    hide Addr, Wrap, Apart, Misplaces;
    assert Cell(q, q.Keys, err, b, regs, mem, m, a);
    if x: Reg :| x in q && Reaches(q, err, b, x, a) {
      var r := EveryoneServes(q, err, known, x);
      SamePlace(b, q[x] + err[x], q[r]);
    }
  }

  lemma SamePlace(b: Word, i: int, j: int)
    ensures Addr(b, i) == Addr(b, j) <==> Wrap(i) == Wrap(j)
  {
    AddrOfWrap(b, i);
    AddrOfWrap(b, j);
    if Wrap(i) != Wrap(j) { AddrDiffers(b, i, j); }
  }

  // ---- a deserted place shows in some state ----

  lemma {:induction false} ValuesAtMost(known: Known, k: nat) returns (s: set<Word>)
    requires k <= 16
    ensures |s| <= k && forall r: Reg :: r < k && known[r].Some? ==> known[r].value in s
  {
    if k == 0 {
      s := {};
    } else {
      s := ValuesAtMost(known, k - 1);
      if known[k - 1].Some? { s := s + {known[k - 1].value}; }
    }
  }

  /** Among k + 1 words from w on there is one outside a set of k. */
  lemma {:induction false} OutsideOf(s: set<Word>, k: nat, w: Word) returns (v: Word)
    requires |s| <= k && w + k < M
    ensures v !in s && v >= w
  {
    if w !in s {
      v := w;
    } else {
      v := OutsideOf(s - {w}, k - 1, w + 1);
    }
  }

  /** Registers that match the cache, where only registers alike to r hold what r holds. */
  lemma Telltale(known: Known, r: Reg) returns (regs: Regs)
    ensures Agrees(known, regs)
    ensures forall x: Reg :: !Alike(known, r, x) ==> regs[x] != regs[r]
  {
    var s := ValuesAtMost(known, 16);
    var w := OutsideOf(s, 16, 1);
    var z: Word := if known[r] == Some(0) then 1 else 0;
    regs := seq(16, i requires 0 <= i < 16 =>
      if known[i].Some? then known[i].value else if i == r then w else z);
  }

  /** A deserted place does not receive its word. */
  lemma DesertedCell(q: Queue, err: map<Reg, Word>, known: Known, b: Word, regs: Regs, m: Mem, r: Reg)
    requires r in q && Deserted(q, err, known, r) && Wrote(q, q.Keys, err, b, regs, map[], m)
    requires forall x: Reg :: !Alike(known, r, x) ==> regs[x] != regs[r]
    ensures Addr(b, q[r]) in m ==> m[Addr(b, q[r])] != regs[r]
  {
    hide Addr, Wrap, Alike;
    var a := Addr(b, q[r]);
    assert Cell(q, q.Keys, err, b, regs, map[], m, a);
    if a in m {
      var x: Reg :| x in q && Reaches(q, err, b, x, a) && m[a] == regs[x];
      SamePlace(b, q[x] + err[x], q[r]);
      assert !Serves(q, err, known, r, x);
    }
  }
}
