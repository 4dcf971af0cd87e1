/** reflect/type.go: looking up a promoted field by name, breadth first over embedded
    structs, with saturating counts that make ambiguous names annihilate each other.

    The specification speaks of embedding paths only: a lookup succeeds exactly when one
    path is the single match at the shallowest matching depth. */
module FieldLookup {
  import opened Basics

  type StructId = nat

  /** What a field's type is, as far as the lookup can tell. */
  datatype FieldType = StructT(id: StructId) | PtrToStruct(id: StructId) | OtherT(code: nat)

  datatype Field = Field(name: string, embedded: bool, typ: FieldType)

  /** The struct types of a program, recursive ones included: entry i lists the fields of struct i. */
  type Types = seq<seq<Field>>

  datatype FieldScan = FieldScan(typ: StructId, index: seq<nat>)

  datatype StructField = NoField | StructField(field: Field, index: seq<nat>)

  ghost predicate WFTypes(T: Types)
  {
    forall t, i | 0 <= t < |T| && 0 <= i < |T[t]| ::
      T[t][i].name != "" && (!T[t][i].typ.OtherT? ==> T[t][i].typ.id < |T|)
  }

  /** The struct an embedded field of type S or *S promotes fields from. */
  function Target(f: Field): Option<StructId>
  {
    if !f.embedded || f.typ.OtherT? then None else Some(f.typ.id)
  }

  // ---------- what a lookup means ----------

  /** The struct reached from root by embedding the fields listed in p, one per level. */
  ghost function Walk(T: Types, root: StructId, p: seq<nat>): (r: Option<StructId>)
    requires WFTypes(T) && root < |T|
    ensures r.Some? ==> r.value < |T|
  {
    if p == [] then Some(root) else Embed(T, Walk(T, root, p[..|p| - 1]), p[|p| - 1])
  }

  ghost function Embed(T: Types, t: Option<StructId>, i: nat): (r: Option<StructId>)
    requires WFTypes(T) && (t.Some? ==> t.value < |T|)
    ensures r.Some? ==> r.value < |T|
  {
    if t.None? || i >= |T[t.value]| then None else Target(T[t.value][i])
  }

  /** p selects a matching field: an embedding path, then the position of the field. */
  ghost predicate Match(T: Types, root: StructId, m: string -> bool, p: seq<nat>)
    requires WFTypes(T) && root < |T|
  {
    p != [] && Declares(T, m, Walk(T, root, p[..|p| - 1]), p[|p| - 1])
  }

  ghost predicate Declares(T: Types, m: string -> bool, t: Option<StructId>, i: nat)
    requires t.Some? ==> t.value < |T|
  {
    t.Some? && i < |T[t.value]| && m(T[t.value][i].name)
  }

  /** p matches, and every other match lies strictly deeper. */
  ghost predicate Selected(T: Types, root: StructId, m: string -> bool, p: seq<nat>)
    requires WFTypes(T) && root < |T|
  {
    Match(T, root, m, p) && forall q | Match(T, root, m, q) :: q == p || |p| < |q|
  }

  /** The field a matching path denotes. */
  ghost function FieldAt(T: Types, root: StructId, p: seq<nat>): Field
    requires WFTypes(T) && root < |T| && p != []
    requires Walk(T, root, p[..|p| - 1]).Some? && p[|p| - 1] < |T[Walk(T, root, p[..|p| - 1]).value]|
  {
    T[Walk(T, root, p[..|p| - 1]).value][p[|p| - 1]]
  }

  ghost predicate HasType(scans: seq<FieldScan>, t: StructId)
  {
    exists k :: 0 <= k < |scans| && scans[k].typ == t
  }

  // ---------- one level of the search ----------

  function Get(m: map<StructId, nat>, t: StructId): nat { if t in m then m[t] else 0 }

  /** The situation when the fields at embedding depth d are about to be examined. */
  datatype Level = Level(T: Types, root: StructId, ghost d: nat, visited: set<StructId>, count: map<StructId, nat>)
  {
    ghost predicate WF() { WFTypes(T) && root < |T| }

    /** One level deeper. */
    ghost function Below(more: set<StructId>, nextCount: map<StructId, nat>): Level
    {
      Level(T, root, d + 1, visited + more, nextCount)
    }

    ghost predicate Ends(q: seq<nat>, t: StructId)
      requires WF()
    {
      Walk(T, root, q) == Some(t)
    }

    ghost predicate Reaches(q: seq<nat>, t: StructId)
      requires WF()
    {
      |q| == d && Ends(q, t)
    }

    /** The counts say of each struct new at this depth whether one or several paths lead to it. */
    ghost predicate CountsPaths()
      requires WF()
    {
      forall t | t !in visited ::
        && (Get(count, t) <= 1 ==> forall q, q' | Reaches(q, t) && Reaches(q', t) :: q == q')
        && (Get(count, t) > 1 ==> exists q, q' :: Reaches(q, t) && Reaches(q', t) && q != q')
    }

    /** The work list holds distinct structs, each with a path to it, and misses no new one. */
    ghost predicate Lists(current: seq<FieldScan>)
      requires WF()
    {
      && (forall k | 0 <= k < |current| :: Reaches(current[k].index, current[k].typ))
      && (forall j, k | 0 <= j < k < |current| :: current[j].typ != current[k].typ)
      && (forall q, t | Reaches(q, t) && t !in visited :: HasType(current, t))
    }

    ghost predicate Shallow(t: StructId)
      requires WF()
    {
      exists q :: |q| < d && Ends(q, t)
    }

    /** The visited structs are those with a path shorter than d. */
    ghost predicate Seen()
      requires WF()
    {
      && (forall t | t in visited :: Shallow(t))
      && (forall q, t | |q| < d && Ends(q, t) :: t in visited)
    }

    /** They were searched, and nothing matched there. */
    ghost predicate Above(m: string -> bool)
      requires WF()
    {
      Seen() && forall p | |p| <= d :: !Match(T, root, m, p)
    }
  }

  /** Which fields of a level have been examined: all those of the structs in `done`, and
      the first n of struct cur. */
  datatype Progress = Progress(done: set<StructId>, cur: StructId, n: nat)
  {
    predicate Includes(t: StructId, i: nat) { t in done || (t == cur && i < n) }
  }

  /** w is a path to an examined field of a struct new at this level. */
  ghost predicate Examined(lv: Level, g: Progress, w: seq<nat>)
    requires lv.WF()
  {
    |w| == lv.d + 1 &&
    var t := Walk(lv.T, lv.root, w[..lv.d]);
    t.Some? && t.value !in lv.visited && w[lv.d] < |lv.T[t.value]| && g.Includes(t.value, w[lv.d])
  }

  ghost function Denoted(lv: Level, g: Progress, w: seq<nat>): Field
    requires lv.WF() && Examined(lv, g, w)
  {
    lv.T[Walk(lv.T, lv.root, w[..lv.d]).value][w[lv.d]]
  }

  /** Every examined path to a match is the one reported; `ok` says there is one. */
  ghost predicate SoleMatch(lv: Level, m: string -> bool, g: Progress, ok: bool, result: StructField)
    requires lv.WF()
  {
    && (ok ==> result.StructField? && Examined(lv, g, result.index) && Match(lv.T, lv.root, m, result.index)
               && result.field == FieldAt(lv.T, lv.root, result.index))
    && (!ok ==> result.NoField?)
    && forall w | Examined(lv, g, w) && m(Denoted(lv, g, w).name) :: ok && w == result.index
  }

  ghost predicate Leads(lv: Level, g: Progress, w: seq<nat>, s: StructId)
    requires lv.WF()
  {
    Examined(lv, g, w) && Target(Denoted(lv, g, w)) == Some(s)
  }

  ghost predicate OneLead(lv: Level, g: Progress, s: StructId)
    requires lv.WF()
  {
    forall w, w' | Leads(lv, g, w, s) && Leads(lv, g, w', s) :: w == w'
  }

  ghost predicate Ambiguous(lv: Level, s: StructId)
    requires lv.WF()
  {
    exists w, w' :: |w| == |w'| == lv.d + 1 && w != w'
                    && Walk(lv.T, lv.root, w) == Some(s) == Walk(lv.T, lv.root, w')
  }

  /** The counts for the next level, as far as the fields examined go. */
  ghost predicate Counted(lv: Level, g: Progress, nextCount: map<StructId, nat>)
    requires lv.WF()
  {
    && (forall w, s | Leads(lv, g, w, s) :: Get(nextCount, s) > 0)
    && (forall s | Get(nextCount, s) == 1 :: OneLead(lv, g, s))
    && (forall s | Get(nextCount, s) > 1 :: Ambiguous(lv, s))
  }

  /** The queue for the next level: one path to each struct counted. */
  ghost predicate Queued(lv: Level, g: Progress, next: seq<FieldScan>, nextCount: map<StructId, nat>)
    requires lv.WF()
  {
    && Counted(lv, g, nextCount)
    && (forall k | 0 <= k < |next| ::
          Leads(lv, g, next[k].index, next[k].typ) && Get(nextCount, next[k].typ) > 0)
    && (forall j, k | 0 <= j < k < |next| :: next[j].typ != next[k].typ)
    && (forall s | Get(nextCount, s) > 0 :: HasType(next, s))
  }

  ghost predicate Clash(lv: Level, m: string -> bool)
    requires lv.WF()
  {
    exists w, w' :: |w| == |w'| == lv.d + 1 && w != w' && Match(lv.T, lv.root, m, w) && Match(lv.T, lv.root, m, w')
  }

  /** Examining field n of struct t adds the paths that end there, a single one unless the
      struct itself was reached several ways. */
  lemma NextField(lv: Level, done: set<StructId>, scan: FieldScan, n: nat, w: seq<nat>)
    requires lv.WF() && lv.CountsPaths() && lv.Reaches(scan.index, scan.typ)
    requires scan.typ !in lv.visited && n < |lv.T[scan.typ]|
    requires Examined(lv, Progress(done, scan.typ, n + 1), w)
    ensures Examined(lv, Progress(done, scan.typ, n), w)
         || (Walk(lv.T, lv.root, w[..lv.d]) == Some(scan.typ) && w[lv.d] == n
             && (Get(lv.count, scan.typ) <= 1 ==> w == scan.index + [n]))
  {
    if !Examined(lv, Progress(done, scan.typ, n), w) {
      assert lv.Reaches(w[..lv.d], scan.typ);
      assert w == w[..lv.d] + [w[lv.d]];
    }
  }

  lemma Extend(lv: Level, q: seq<nat>, t: StructId, n: nat, m: string -> bool)
    requires lv.WF() && lv.Reaches(q, t) && n < |lv.T[t]|
    ensures Walk(lv.T, lv.root, q + [n]) == Target(lv.T[t][n])
    ensures Match(lv.T, lv.root, m, q + [n]) <==> m(lv.T[t][n].name)
    ensures FieldAt(lv.T, lv.root, q + [n]) == lv.T[t][n]
  {
    assert (q + [n])[..lv.d] == q;
  }

  /** Two ways to reach a struct are two ways to reach whatever it embeds or declares. */
  lemma ExtendTwice(lv: Level, t: StructId, n: nat, m: string -> bool)
    requires lv.WF() && lv.CountsPaths() && t !in lv.visited && Get(lv.count, t) > 1 && n < |lv.T[t]|
    ensures Target(lv.T[t][n]).Some? ==> Ambiguous(lv, Target(lv.T[t][n]).value)
    ensures m(lv.T[t][n].name) ==> Clash(lv, m)
  {
    var q, q' :| lv.Reaches(q, t) && lv.Reaches(q', t) && q != q';
    Extend(lv, q, t, n, m);
    Extend(lv, q', t, n, m);
    assert (q + [n])[..lv.d] == q && (q' + [n])[..lv.d] == q';
  }

  /** Examining field n of the struct at hand adds the path to it, and no other path unless
      the struct was reached several ways. */
  lemma NewPaths(lv: Level, done: set<StructId>, scan: FieldScan, n: nat)
    requires lv.WF() && lv.CountsPaths() && lv.Reaches(scan.index, scan.typ)
    requires scan.typ !in lv.visited && scan.typ !in done && n < |lv.T[scan.typ]|
    ensures var g, g', path := Progress(done, scan.typ, n), Progress(done, scan.typ, n + 1), scan.index + [n];
            && Examined(lv, g', path) && !Examined(lv, g, path) && Denoted(lv, g', path) == lv.T[scan.typ][n]
            && (forall w | Examined(lv, g, w) :: Examined(lv, g', w))
            && (forall w | Examined(lv, g', w) :: Examined(lv, g, w)
                 || (Denoted(lv, g', w) == lv.T[scan.typ][n] && (Get(lv.count, scan.typ) <= 1 ==> w == path)))
  {
    var g, g', path := Progress(done, scan.typ, n), Progress(done, scan.typ, n + 1), scan.index + [n];
    assert path[..lv.d] == scan.index;
    forall w | Examined(lv, g', w)
      ensures Examined(lv, g, w)
           || (Denoted(lv, g', w) == lv.T[scan.typ][n] && (Get(lv.count, scan.typ) <= 1 ==> w == path))
    {
      NextField(lv, done, scan, n, w);
    }
  }

  lemma NewLeads(lv: Level, done: set<StructId>, scan: FieldScan, n: nat)
    requires lv.WF() && lv.CountsPaths() && lv.Reaches(scan.index, scan.typ)
    requires scan.typ !in lv.visited && scan.typ !in done && n < |lv.T[scan.typ]|
    ensures var g, g', path := Progress(done, scan.typ, n), Progress(done, scan.typ, n + 1), scan.index + [n];
            && (forall w, s: StructId | Leads(lv, g, w, s) :: Leads(lv, g', w, s))
            && (forall w, s: StructId | Leads(lv, g', w, s) :: Leads(lv, g, w, s)
                 || (Target(lv.T[scan.typ][n]) == Some(s) && (Get(lv.count, scan.typ) <= 1 ==> w == path)))
            && (forall s: StructId :: !Leads(lv, g, path, s))
            && (Target(lv.T[scan.typ][n]).Some? ==> Leads(lv, g', path, Target(lv.T[scan.typ][n]).value))
  {
    NewPaths(lv, done, scan, n);
  }

  lemma TwoLeads(lv: Level, g: Progress, w: seq<nat>, w': seq<nat>, s: StructId)
    requires lv.WF() && Leads(lv, g, w, s) && Leads(lv, g, w', s) && w != w'
    ensures Ambiguous(lv, s)
  {
  }

  lemma SkipStep(lv: Level, done: set<StructId>, scan: FieldScan, n: nat, m: string -> bool,
                 next: seq<FieldScan>, nextCount: map<StructId, nat>)
    requires lv.WF() && lv.CountsPaths() && lv.Reaches(scan.index, scan.typ)
    requires scan.typ !in lv.visited && scan.typ !in done && n < |lv.T[scan.typ]|
    requires Queued(lv, Progress(done, scan.typ, n), next, nextCount)
    requires Target(lv.T[scan.typ][n]).None?
    ensures Queued(lv, Progress(done, scan.typ, n + 1), next, nextCount)
  {
    hide Leads;
    NewLeads(lv, done, scan, n);
  }

  /** A single path to a struct stays single unless field n embeds that struct; the path
      through field n is single if nothing led there before and one path leads to n. */
  lemma OneLeadStep(lv: Level, done: set<StructId>, scan: FieldScan, n: nat, s: StructId)
    requires lv.WF() && lv.CountsPaths() && lv.Reaches(scan.index, scan.typ)
    requires scan.typ !in lv.visited && scan.typ !in done && n < |lv.T[scan.typ]|
    requires if Target(lv.T[scan.typ][n]) == Some(s)
             then Get(lv.count, scan.typ) <= 1 && forall w :: !Leads(lv, Progress(done, scan.typ, n), w, s)
             else OneLead(lv, Progress(done, scan.typ, n), s)
    ensures OneLead(lv, Progress(done, scan.typ, n + 1), s)
  {
    hide Leads;
    NewLeads(lv, done, scan, n);
  }

  /** A struct that several examined paths reach, or one that a struct reached several ways
      embeds, counts 2; one met for the first time counts 1. */
  lemma CountStep(lv: Level, done: set<StructId>, scan: FieldScan, n: nat, m: string -> bool,
                  nextCount: map<StructId, nat>, styp: StructId, c: nat)
    requires lv.WF() && lv.CountsPaths() && lv.Reaches(scan.index, scan.typ)
    requires scan.typ !in lv.visited && scan.typ !in done && n < |lv.T[scan.typ]|
    requires Counted(lv, Progress(done, scan.typ, n), nextCount)
    requires Target(lv.T[scan.typ][n]) == Some(styp)
    requires if Get(nextCount, styp) > 0 then c == 2 && exists w :: Leads(lv, Progress(done, scan.typ, n), w, styp)
             else c == if Get(lv.count, scan.typ) > 1 then 2 else 1
    ensures Counted(lv, Progress(done, scan.typ, n + 1), nextCount[styp := c])
  {
    hide Leads;
    var g, g', path, count' := Progress(done, scan.typ, n), Progress(done, scan.typ, n + 1), scan.index + [n],
      nextCount[styp := c];
    NewLeads(lv, done, scan, n);
    if Get(nextCount, styp) > 0 {
      var w :| Leads(lv, g, w, styp);
      TwoLeads(lv, g', path, w, styp);
    } else if c == 2 {
      ExtendTwice(lv, scan.typ, n, m);
    }
    forall w, s: StructId | Leads(lv, g', w, s) ensures Get(count', s) > 0 {
      if s != styp { assert Leads(lv, g, w, s); }
    }
    forall s: StructId | Get(count', s) == 1 ensures OneLead(lv, g', s) {
      assert s != styp ==> Get(nextCount, s) == 1;
      OneLeadStep(lv, done, scan, n, s);
    }
    forall s: StructId | Get(count', s) > 1 ensures Ambiguous(lv, s) {
      assert s != styp ==> Get(nextCount, s) > 1;
    }
  }

  /** A struct already in the queue becomes ambiguous. */
  lemma AgainStep(lv: Level, done: set<StructId>, scan: FieldScan, n: nat, m: string -> bool,
                  next: seq<FieldScan>, nextCount: map<StructId, nat>, styp: StructId)
    requires lv.WF() && lv.CountsPaths() && lv.Reaches(scan.index, scan.typ)
    requires scan.typ !in lv.visited && scan.typ !in done && n < |lv.T[scan.typ]|
    requires Queued(lv, Progress(done, scan.typ, n), next, nextCount)
    requires Target(lv.T[scan.typ][n]) == Some(styp) && Get(nextCount, styp) > 0
    ensures Queued(lv, Progress(done, scan.typ, n + 1), next, nextCount[styp := 2])
  {
    hide Leads;
    hide Counted;
    var k :| 0 <= k < |next| && next[k].typ == styp;
    CountStep(lv, done, scan, n, m, nextCount, styp, 2);
    NewLeads(lv, done, scan, n);
    forall s: StructId | Get(nextCount[styp := 2], s) > 0 ensures HasType(next, s) {
      assert Get(nextCount, s) > 0;
    }
  }

  /** A struct met for the first time joins the queue with the path to it. */
  lemma FirstStep(lv: Level, done: set<StructId>, scan: FieldScan, n: nat, m: string -> bool,
                  next: seq<FieldScan>, nextCount: map<StructId, nat>, styp: StructId, c: nat)
    requires lv.WF() && lv.CountsPaths() && lv.Reaches(scan.index, scan.typ)
    requires scan.typ !in lv.visited && scan.typ !in done && n < |lv.T[scan.typ]|
    requires Queued(lv, Progress(done, scan.typ, n), next, nextCount)
    requires Target(lv.T[scan.typ][n]) == Some(styp) && Get(nextCount, styp) == 0
    requires c == if Get(lv.count, scan.typ) > 1 then 2 else 1
    ensures Queued(lv, Progress(done, scan.typ, n + 1), next + [FieldScan(styp, scan.index + [n])],
                   nextCount[styp := c])
  {
    hide Leads;
    hide Counted;
    CountStep(lv, done, scan, n, m, nextCount, styp, c);
    NewLeads(lv, done, scan, n);
    var next', count' := next + [FieldScan(styp, scan.index + [n])], nextCount[styp := c];
    forall s: StructId | Get(count', s) > 0 ensures HasType(next', s) {
      if s == styp {
        assert next'[|next|].typ == s;
      } else {
        assert Get(nextCount, s) > 0;
        var k :| 0 <= k < |next| && next[k].typ == s;
        assert next'[k].typ == s;
      }
    }
  }

  /** A first match reached a single way is the only match examined so far. */
  lemma FoundStep(lv: Level, done: set<StructId>, scan: FieldScan, n: nat, m: string -> bool)
    requires lv.WF() && lv.CountsPaths() && lv.Reaches(scan.index, scan.typ)
    requires scan.typ !in lv.visited && scan.typ !in done && n < |lv.T[scan.typ]|
    requires SoleMatch(lv, m, Progress(done, scan.typ, n), false, NoField)
    requires m(lv.T[scan.typ][n].name) && Get(lv.count, scan.typ) <= 1
    ensures SoleMatch(lv, m, Progress(done, scan.typ, n + 1), true, StructField(lv.T[scan.typ][n], scan.index + [n]))
  {
    Extend(lv, scan.index, scan.typ, n, m);
    NewPaths(lv, done, scan, n);
  }

  lemma NotFoundStep(lv: Level, done: set<StructId>, scan: FieldScan, n: nat, m: string -> bool, ok: bool,
                     result: StructField)
    requires lv.WF() && lv.CountsPaths() && lv.Reaches(scan.index, scan.typ)
    requires scan.typ !in lv.visited && scan.typ !in done && n < |lv.T[scan.typ]|
    requires SoleMatch(lv, m, Progress(done, scan.typ, n), ok, result)
    requires !m(lv.T[scan.typ][n].name)
    ensures SoleMatch(lv, m, Progress(done, scan.typ, n + 1), ok, result)
  {
    NewPaths(lv, done, scan, n);
  }

  /** A match in a struct reached several ways, or a second match, is a clash. */
  lemma ClashStep(lv: Level, done: set<StructId>, scan: FieldScan, n: nat, m: string -> bool, ok: bool,
                  result: StructField)
    requires lv.WF() && lv.CountsPaths() && lv.Reaches(scan.index, scan.typ)
    requires scan.typ !in lv.visited && scan.typ !in done && n < |lv.T[scan.typ]|
    requires SoleMatch(lv, m, Progress(done, scan.typ, n), ok, result)
    requires m(lv.T[scan.typ][n].name) && (Get(lv.count, scan.typ) > 1 || ok)
    ensures Clash(lv, m)
  {
    if Get(lv.count, scan.typ) > 1 {
      ExtendTwice(lv, scan.typ, n, m);
    } else {
      Extend(lv, scan.index, scan.typ, n, m);
      NewPaths(lv, done, scan, n);
      assert result.index != scan.index + [n];
    }
  }

  /** The loop over the fields of one struct of the work list. */
  method ScanFields(lv: Level, m: string -> bool, scan: FieldScan, ghost done: set<StructId>,
                    next0: seq<FieldScan>, nextCount0: map<StructId, nat>, ok0: bool, result0: StructField)
    returns (next: seq<FieldScan>, nextCount: map<StructId, nat>, ok: bool, result: StructField, clash: bool)
    requires lv.WF() && lv.CountsPaths() && lv.Reaches(scan.index, scan.typ)
    requires scan.typ !in lv.visited && scan.typ !in done
    requires SoleMatch(lv, m, Progress(done, scan.typ, 0), ok0, result0)
    requires !ok0 ==> Queued(lv, Progress(done, scan.typ, 0), next0, nextCount0)
    ensures clash ==> Clash(lv, m)
    ensures !clash ==> SoleMatch(lv, m, Progress(done, scan.typ, |lv.T[scan.typ]|), ok, result)
    ensures !clash && !ok ==> Queued(lv, Progress(done, scan.typ, |lv.T[scan.typ]|), next, nextCount)
  {
    var t := scan.typ;
    next, nextCount, ok, result, clash := next0, nextCount0, ok0, result0, false;
    for i := 0 to |lv.T[t]|
      invariant SoleMatch(lv, m, Progress(done, t, i), ok, result)
      invariant !ok ==> Queued(lv, Progress(done, t, i), next, nextCount)
    {
      var f := lv.T[t][i];
      if m(f.name) {
        if Get(lv.count, t) > 1 || ok {
          ClashStep(lv, done, scan, i, m, ok, result);
          clash := true;
          return;
        }
        FoundStep(lv, done, scan, i, m);
        result, ok := StructField(f, scan.index + [i]), true;
        continue;
      }
      NotFoundStep(lv, done, scan, i, m, ok, result);
      var ntyp := Target(f);
      if ok || ntyp.None? {
        if !ok { SkipStep(lv, done, scan, i, m, next, nextCount); }
        continue;
      }
      var styp := ntyp.value;
      if Get(nextCount, styp) > 0 {
        AgainStep(lv, done, scan, i, m, next, nextCount, styp);
        nextCount := nextCount[styp := 2];
        continue;
      }
      var c := if Get(lv.count, t) > 1 then 2 else 1;
      FirstStep(lv, done, scan, i, m, next, nextCount, styp, c);
      nextCount := nextCount[styp := c];
      next := next + [FieldScan(styp, scan.index + [i])];
    }
  }

  /** Only which fields are examined matters, not how the progress is written down. */
  lemma SameExamined(lv: Level, m: string -> bool, g: Progress, g': Progress, ok: bool, result: StructField,
                     next: seq<FieldScan>, nextCount: map<StructId, nat>)
    requires lv.WF() && forall w :: Examined(lv, g, w) <==> Examined(lv, g', w)
    ensures SoleMatch(lv, m, g, ok, result) ==> SoleMatch(lv, m, g', ok, result)
    ensures Queued(lv, g, next, nextCount) ==> Queued(lv, g', next, nextCount)
  {
    assert forall w, s: StructId :: Leads(lv, g, w, s) <==> Leads(lv, g', w, s);
    forall s: StructId | OneLead(lv, g, s) ensures OneLead(lv, g', s) {}
  }

  lemma StartStruct(lv: Level, m: string -> bool, done: set<StructId>, cur: StructId, t: StructId, ok: bool,
                    result: StructField,
                    next: seq<FieldScan>, nextCount: map<StructId, nat>)
    requires lv.WF()
    ensures var g, g' := Progress(done, cur, 0), Progress(done, t, 0);
            && (SoleMatch(lv, m, g, ok, result) ==> SoleMatch(lv, m, g', ok, result))
            && (Queued(lv, g, next, nextCount) ==> Queued(lv, g', next, nextCount))
  {
    SameExamined(lv, m, Progress(done, cur, 0), Progress(done, t, 0), ok, result, next, nextCount);
  }

  lemma EndStruct(lv: Level, m: string -> bool, done: set<StructId>, t: StructId, ok: bool, result: StructField,
                  next: seq<FieldScan>, nextCount: map<StructId, nat>)
    requires lv.WF() && t < |lv.T|
    ensures var g, g' := Progress(done, t, |lv.T[t]|), Progress(done + {t}, 0, 0);
            && (SoleMatch(lv, m, g, ok, result) ==> SoleMatch(lv, m, g', ok, result))
            && (Queued(lv, g, next, nextCount) ==> Queued(lv, g', next, nextCount))
  {
    SameExamined(lv, m, Progress(done, t, |lv.T[t]|), Progress(done + {t}, 0, 0), ok, result, next, nextCount);
  }

  /** All fields of the structs new at this level, and of no others, are examined. */
  ghost predicate Scanned(lv: Level, g: Progress)
    requires lv.WF()
  {
    && g.n == 0
    && (forall t | t in g.done :: t !in lv.visited && exists q :: lv.Reaches(q, t))
    && (forall q, t | lv.Reaches(q, t) && t !in lv.visited :: t in g.done)
  }

  lemma AllScanned(lv: Level, current: seq<FieldScan>, g: Progress)
    requires lv.WF() && lv.Lists(current) && g.n == 0
    requires forall t | t in g.done :: t !in lv.visited && HasType(current, t)
    requires forall j | 0 <= j < |current| :: current[j].typ in lv.visited + g.done
    ensures Scanned(lv, g)
  {
    forall q, t: StructId | lv.Reaches(q, t) && t !in lv.visited ensures t in g.done {
      assert HasType(current, t);
    }
    forall t | t in g.done ensures exists q :: lv.Reaches(q, t) {
      var j :| 0 <= j < |current| && current[j].typ == t;
      assert lv.Reaches(current[j].index, t);
    }
  }

  /** ScanFields, with the progress counted in whole structs. */
  method ScanStruct(lv: Level, m: string -> bool, scan: FieldScan, ghost done: set<StructId>, ghost cur: StructId,
                    next0: seq<FieldScan>, nextCount0: map<StructId, nat>, ok0: bool, result0: StructField)
    returns (next: seq<FieldScan>, nextCount: map<StructId, nat>, ok: bool, result: StructField, clash: bool)
    requires lv.WF() && lv.CountsPaths() && lv.Reaches(scan.index, scan.typ)
    requires scan.typ !in lv.visited && scan.typ !in done
    requires SoleMatch(lv, m, Progress(done, cur, 0), ok0, result0)
    requires !ok0 ==> Queued(lv, Progress(done, cur, 0), next0, nextCount0)
    ensures clash ==> Clash(lv, m)
    ensures !clash ==> SoleMatch(lv, m, Progress(done + {scan.typ}, 0, 0), ok, result)
    ensures !clash && !ok ==> Queued(lv, Progress(done + {scan.typ}, 0, 0), next, nextCount)
  {
    StartStruct(lv, m, done, cur, scan.typ, ok0, result0, next0, nextCount0);
    next, nextCount, ok, result, clash := ScanFields(lv, m, scan, done, next0, nextCount0, ok0, result0);
    EndStruct(lv, m, done, scan.typ, ok, result, next, nextCount);
  }

  lemma NothingExamined(lv: Level, m: string -> bool)
    requires lv.WF()
    ensures SoleMatch(lv, m, Progress({}, 0, 0), false, NoField)
    ensures Queued(lv, Progress({}, 0, 0), [], map[])
  {
  }

  /** The loop over the work list of one level; `g` ends up including all its new structs. */
  method ScanLevel(lv: Level, m: string -> bool, current: seq<FieldScan>)
    returns (next: seq<FieldScan>, nextCount: map<StructId, nat>, visited: set<StructId>,
             ok: bool, result: StructField, clash: bool, ghost g: Progress)
    requires lv.WF() && lv.CountsPaths() && lv.Lists(current)
    ensures clash ==> Clash(lv, m)
    ensures !clash ==> visited == lv.visited + g.done && Scanned(lv, g) && SoleMatch(lv, m, g, ok, result)
    ensures !clash && !ok ==> Queued(lv, g, next, nextCount)
  {
    hide SoleMatch;
    hide Queued;
    hide Scanned;
    hide Clash;
    next, nextCount, visited, ok, result, clash := [], map[], lv.visited, false, NoField, false;
    g := Progress({}, 0, 0);
    NothingExamined(lv, m);
    for k := 0 to |current|
      invariant g.n == 0 && visited == lv.visited + g.done
      invariant forall t | t in g.done :: t !in lv.visited && HasType(current, t)
      invariant forall j | 0 <= j < k :: current[j].typ in visited
      invariant SoleMatch(lv, m, g, ok, result)
      invariant !ok ==> Queued(lv, g, next, nextCount)
    {
      var scan := current[k];
      assert lv.Reaches(scan.index, scan.typ) && HasType(current, scan.typ);
      if scan.typ in visited { continue; }
      visited := visited + {scan.typ};
      next, nextCount, ok, result, clash := ScanStruct(lv, m, scan, g.done, g.cur, next, nextCount, ok, result);
      if clash { return; }
      g := Progress(g.done + {scan.typ}, 0, 0);
    }
    AllScanned(lv, current, g);
  }

  ghost predicate Shadows(lv: Level, v: seq<nat>, w: seq<nat>)
    requires lv.WF() && |w| == lv.d + 1
  {
    0 < |v| <= lv.d && v[|v| - 1] == w[lv.d]
    && Walk(lv.T, lv.root, v[..|v| - 1]) == Walk(lv.T, lv.root, w[..lv.d])
  }

  /** A path of length d + 1 through a struct seen higher up has a shorter rival with the
      same last step; any other path of that length has been examined. */
  lemma ExaminedOrShadowed(lv: Level, g: Progress, w: seq<nat>)
    requires lv.WF() && lv.Seen() && Scanned(lv, g) && |w| == lv.d + 1
    requires Walk(lv.T, lv.root, w[..lv.d]).Some?
    requires w[lv.d] < |lv.T[Walk(lv.T, lv.root, w[..lv.d]).value]|
    ensures Examined(lv, g, w) || exists v :: Shadows(lv, v, w)
  {
    var t := Walk(lv.T, lv.root, w[..lv.d]).value;
    if t in lv.visited {
      assert lv.Shallow(t);
      var q :| |q| < lv.d && lv.Ends(q, t);
      var v := q + [w[lv.d]];
      assert v[..|v| - 1] == q;
      assert Shadows(lv, v, w);
    } else {
      assert lv.Ends(w[..lv.d], t) && lv.Reaches(w[..lv.d], t);
    }
  }

  lemma ShadowAgrees(lv: Level, m: string -> bool, v: seq<nat>, w: seq<nat>)
    requires lv.WF() && |w| == lv.d + 1 && Shadows(lv, v, w)
    ensures Walk(lv.T, lv.root, v) == Walk(lv.T, lv.root, w)
    ensures Match(lv.T, lv.root, m, v) <==> Match(lv.T, lv.root, m, w)
  {
    hide Embed;
    hide Declares;
    assert Walk(lv.T, lv.root, v) == Embed(lv.T, Walk(lv.T, lv.root, v[..|v| - 1]), v[|v| - 1]);
    assert Walk(lv.T, lv.root, w) == Embed(lv.T, Walk(lv.T, lv.root, w[..lv.d]), w[lv.d]);
  }

  lemma MatchesExamined(lv: Level, g: Progress, m: string -> bool, w: seq<nat>)
    requires lv.WF() && lv.Above(m) && Scanned(lv, g) && |w| == lv.d + 1 && Match(lv.T, lv.root, m, w)
    ensures Examined(lv, g, w) && m(Denoted(lv, g, w).name)
  {
    ExaminedOrShadowed(lv, g, w);
    forall v | Shadows(lv, v, w) ensures false {
      ShadowAgrees(lv, m, v, w);
    }
  }

  lemma ShadowSeen(lv: Level, g: Progress, m: string -> bool, v: seq<nat>, w: seq<nat>, s: StructId)
    requires lv.WF() && lv.Seen() && Scanned(lv, g) && |w| == lv.d + 1
    requires Walk(lv.T, lv.root, w) == Some(s) && Shadows(lv, v, w)
    ensures s in lv.visited + g.done
  {
    ShadowAgrees(lv, m, v, w);
    assert lv.Ends(v, s) && (|v| < lv.d || lv.Reaches(v, s));
  }

  /** A path to a struct that is still new after this level was followed on this level. */
  lemma WalkLeads(lv: Level, g: Progress, m: string -> bool, w: seq<nat>, s: StructId)
    requires lv.WF() && lv.Seen() && Scanned(lv, g) && |w| == lv.d + 1
    requires Walk(lv.T, lv.root, w) == Some(s) && s !in lv.visited + g.done
    ensures Leads(lv, g, w, s)
  {
    ExaminedOrShadowed(lv, g, w);
    forall v | Shadows(lv, v, w) ensures false {
      ShadowSeen(lv, g, m, v, w, s);
    }
  }

  /** A level without a match hands the search over to the next one: nothing matched so
      far, the queue misses no new struct, and its counts tell unique paths from others. */
  lemma NextSeen(lv: Level, g: Progress, nextCount: map<StructId, nat>)
    requires lv.WF() && lv.Seen() && Scanned(lv, g)
    ensures lv.Below(g.done, nextCount).Seen()
  {
    var lv' := lv.Below(g.done, nextCount);
    forall t | t in lv'.visited ensures lv'.Shallow(t) {
      assert t in lv.visited ==> lv.Shallow(t);
      var q :| |q| <= lv.d && lv.Ends(q, t);
      assert lv.Ends(q, t);
      assert Walk(lv.T, lv.root, q) == Some(t) && lv'.T == lv.T;
      assert |q| < lv'.d && lv'.Ends(q, t);
    }
    forall q, t: StructId | |q| < lv'.d && lv'.Ends(q, t) ensures t in lv'.visited {
      assert lv.Ends(q, t) && (|q| < lv.d || lv.Reaches(q, t));
    }
  }

  lemma NextAbove(lv: Level, g: Progress, m: string -> bool, nextCount: map<StructId, nat>)
    requires lv.WF() && lv.Above(m) && Scanned(lv, g) && SoleMatch(lv, m, g, false, NoField)
    ensures lv.Below(g.done, nextCount).Above(m)
  {
    var lv' := lv.Below(g.done, nextCount);
    NextSeen(lv, g, nextCount);
    forall p | |p| <= lv'.d ensures !Match(lv.T, lv.root, m, p) {
      if |p| == lv'.d && Match(lv.T, lv.root, m, p) { MatchesExamined(lv, g, m, p); }
    }
  }

  lemma LeadsWalks(lv: Level, g: Progress, w: seq<nat>, s: StructId)
    requires lv.WF() && Leads(lv, g, w, s)
    ensures |w| == lv.d + 1 && Walk(lv.T, lv.root, w) == Some(s)
  {
  }

  lemma QueueMissesNone(lv: Level, g: Progress, m: string -> bool, next: seq<FieldScan>,
                        nextCount: map<StructId, nat>, q: seq<nat>, s: StructId)
    requires lv.WF() && lv.Seen() && Scanned(lv, g) && Queued(lv, g, next, nextCount)
    requires |q| == lv.d + 1 && Walk(lv.T, lv.root, q) == Some(s) && s !in lv.visited + g.done
    ensures HasType(next, s)
  {
    WalkLeads(lv, g, m, q, s);
  }

  lemma NextLists(lv: Level, g: Progress, m: string -> bool, next: seq<FieldScan>, nextCount: map<StructId, nat>)
    requires lv.WF() && lv.Seen() && Scanned(lv, g) && Queued(lv, g, next, nextCount)
    ensures lv.Below(g.done, nextCount).Lists(next)
  {
    var lv' := lv.Below(g.done, nextCount);
    forall q, s: StructId | lv'.Reaches(q, s) && s !in lv'.visited ensures HasType(next, s) {
      QueueMissesNone(lv, g, m, next, nextCount, q, s);
    }
    forall k | 0 <= k < |next| ensures lv'.Reaches(next[k].index, next[k].typ) {
      LeadsWalks(lv, g, next[k].index, next[k].typ);
    }
  }

  lemma NextCounts(lv: Level, g: Progress, m: string -> bool, nextCount: map<StructId, nat>)
    requires lv.WF() && lv.Seen() && Scanned(lv, g) && Counted(lv, g, nextCount)
    ensures lv.Below(g.done, nextCount).CountsPaths()
  {
    var lv' := lv.Below(g.done, nextCount);
    forall q, s: StructId | lv'.Reaches(q, s) && s !in lv'.visited ensures Leads(lv, g, q, s) {
      WalkLeads(lv, g, m, q, s);
    }
    forall s: StructId | s !in lv'.visited
      ensures Get(nextCount, s) <= 1 ==> forall q, q' | lv'.Reaches(q, s) && lv'.Reaches(q', s) :: q == q'
      ensures Get(nextCount, s) > 1 ==> exists q, q' :: lv'.Reaches(q, s) && lv'.Reaches(q', s) && q != q'
    {
      if Get(nextCount, s) > 1 {
        var w, w' :| |w| == |w'| == lv.d + 1 && w != w'
                     && Walk(lv.T, lv.root, w) == Some(s) == Walk(lv.T, lv.root, w');
        assert lv'.Reaches(w, s) && lv'.Reaches(w', s);
      } else {
        assert Get(nextCount, s) == 1 ==> OneLead(lv, g, s);
      }
    }
  }

  ghost function UpTo(n: nat): (r: set<nat>)
    ensures forall t :: t in r <==> 0 <= t < n
  {
    if n == 0 then {} else UpTo(n - 1) + {n - 1}
  }

  /** Progress of the level loop: new structs were visited, or the queue is empty now. */
  lemma LevelShrinks(lv: Level, g: Progress, next: seq<FieldScan>, nextCount: map<StructId, nat>)
    requires lv.WF() && Scanned(lv, g) && Queued(lv, g, next, nextCount) && lv.visited <= UpTo(|lv.T|)
    ensures lv.visited + g.done <= UpTo(|lv.T|)
    ensures g.done == {} ==> next == []
    ensures g.done != {} ==> |UpTo(|lv.T|) - (lv.visited + g.done)| < |UpTo(|lv.T|) - lv.visited|
  {
    forall t | t in g.done ensures t in UpTo(|lv.T|) { var q :| lv.Reaches(q, t); }
    if g.done == {} {
      assert next == [] || Leads(lv, g, next[0].index, next[0].typ);
    } else {
      var u := UpTo(|lv.T|) - lv.visited;
      assert UpTo(|lv.T|) - (lv.visited + g.done) == u - g.done;
      assert u == (u - g.done) + g.done;
    }
  }

  lemma SoleMatchSelected(lv: Level, g: Progress, m: string -> bool, result: StructField)
    requires lv.WF() && lv.Above(m) && Scanned(lv, g) && SoleMatch(lv, m, g, true, result)
    ensures Selected(lv.T, lv.root, m, result.index)
  {
    forall q | Match(lv.T, lv.root, m, q) ensures q == result.index || |result.index| < |q| {
      if |q| == lv.d + 1 { MatchesExamined(lv, g, m, q); }
    }
  }

  /** The work list ran empty: every path of length d ends in a struct searched before. */
  ghost predicate Exhausted(lv: Level)
    requires lv.WF()
  {
    forall q, t | lv.Reaches(q, t) :: t in lv.visited
  }

  lemma StepStaysAbove(lv: Level, v: seq<nat>, x: nat, t: StructId)
    requires lv.WF() && lv.Seen() && Exhausted(lv) && |v| < lv.d && lv.Ends(v + [x], t)
    ensures t in lv.visited
  {
    assert |v + [x]| < lv.d || lv.Reaches(v + [x], t);
  }

  /** Paths to one struct continue alike. */
  lemma SameStep(lv: Level, v: seq<nat>, q: seq<nat>, n: nat)
    requires lv.WF() && Walk(lv.T, lv.root, v) == Walk(lv.T, lv.root, q)
    ensures Walk(lv.T, lv.root, v + [n]) == Walk(lv.T, lv.root, q + [n])
  {
    assert (v + [n])[..|v|] == v && (q + [n])[..|q|] == q;
  }

  lemma SameMatch(lv: Level, m: string -> bool, v: seq<nat>, q: seq<nat>, n: nat)
    requires lv.WF() && Walk(lv.T, lv.root, v) == Walk(lv.T, lv.root, q)
    ensures Match(lv.T, lv.root, m, v + [n]) <==> Match(lv.T, lv.root, m, q + [n])
  {
    assert (v + [n])[..|v|] == v && (q + [n])[..|q|] == q;
  }

  lemma WalkPrefix(lv: Level, q: seq<nat>, x: nat)
    requires lv.WF() && Walk(lv.T, lv.root, q + [x]).Some?
    ensures Walk(lv.T, lv.root, q).Some?
  {
    assert (q + [x])[..|q|] == q;
  }

  /** Then every path stays among structs already searched, and has a short rival. */
  lemma {:induction false} StaysAbove(lv: Level, q: seq<nat>, t: StructId) returns (v: seq<nat>)
    requires lv.WF() && lv.Seen() && Exhausted(lv) && lv.Ends(q, t)
    ensures |v| < lv.d && lv.Ends(v, t)
    decreases |q|
  {
    if |q| < lv.d {
      v := q;
    } else if |q| == lv.d {
      assert lv.Reaches(q, t) && lv.Shallow(t);
      v :| |v| < lv.d && lv.Ends(v, t);
    } else {
      var q0, x := q[..|q| - 1], q[|q| - 1];
      assert q == q0 + [x];
      WalkPrefix(lv, q0, x);
      var u := StaysAbove(lv, q0, Walk(lv.T, lv.root, q0).value);
      SameStep(lv, u, q0, x);
      StepStaysAbove(lv, u, x, t);
      assert lv.Shallow(t);
      v :| |v| < lv.d && lv.Ends(v, t);
    }
  }

  /** So a match anywhere would have a rival high enough to have been found. */
  lemma MatchAbove(lv: Level, m: string -> bool, p: seq<nat>)
    requires lv.WF() && lv.Seen() && Exhausted(lv) && Match(lv.T, lv.root, m, p)
    ensures exists p' :: |p'| <= lv.d && Match(lv.T, lv.root, m, p')
  {
    var v := StaysAbove(lv, p[..|p| - 1], Walk(lv.T, lv.root, p[..|p| - 1]).value);
    assert p == p[..|p| - 1] + [p[|p| - 1]];
    SameMatch(lv, m, v, p[..|p| - 1], p[|p| - 1]);
    assert |v + [p[|p| - 1]]| <= lv.d;
  }

  lemma NothingBelow(lv: Level, m: string -> bool)
    requires lv.WF() && lv.Above(m) && lv.Lists([])
    ensures forall p :: !Match(lv.T, lv.root, m, p)
  {
    forall q, t: StructId | lv.Reaches(q, t) ensures t in lv.visited {
      assert !HasType([], t);
    }
    forall p | Match(lv.T, lv.root, m, p) ensures false { MatchAbove(lv, m, p); }
  }

  lemma ClashSelectsNone(lv: Level, m: string -> bool)
    requires lv.WF() && lv.Above(m) && Clash(lv, m)
    ensures forall p :: !Selected(lv.T, lv.root, m, p)
  {
    var w, w' :| |w| == |w'| == lv.d + 1 && w != w' && Match(lv.T, lv.root, m, w) && Match(lv.T, lv.root, m, w');
  }

  /** FieldByNameFunc: the level loop.  It terminates on recursive types, and it finds a
      field exactly when one path is the only shallowest match; it reports that path. */
  method FieldByNameFunc(T: Types, root: StructId, m: string -> bool) returns (result: StructField, ok: bool)
    requires WFTypes(T) && root < |T|
    ensures ok ==> result.StructField? && Selected(T, root, m, result.index)
    ensures ok ==> result.field == FieldAt(T, root, result.index)
    ensures !ok ==> result.NoField? && forall p :: !Selected(T, root, m, p)
  {
    var current, next := [], [FieldScan(root, [])];
    var nextCount: map<StructId, nat> := map[];
    var visited: set<StructId> := {};
    ghost var d := 0;
    result, ok := NoField, false;
    assert next[0].typ == root;
    while |next| > 0
      invariant visited <= UpTo(|T|)
      invariant Level(T, root, d, visited, nextCount).Above(m)
      invariant Level(T, root, d, visited, nextCount).CountsPaths()
      invariant Level(T, root, d, visited, nextCount).Lists(next)
      decreases |UpTo(|T|) - visited|, |next|
    {
      current := next;
      var lv := Level(T, root, d, visited, nextCount);
      var clash;
      ghost var g;
      next, nextCount, visited, ok, result, clash, g := ScanLevel(lv, m, current);
      if clash {
        ClashSelectsNone(lv, m);
        return NoField, false;
      }
      if ok {
        SoleMatchSelected(lv, g, m, result);
        return;
      }
      NextAbove(lv, g, m, nextCount);
      NextLists(lv, g, m, next, nextCount);
      NextCounts(lv, g, m, nextCount);
      LevelShrinks(lv, g, next, nextCount);
      d := d + 1;
    }
    NothingBelow(Level(T, root, d, visited, nextCount), m);
    return NoField, false;
  }

  /** The field an index path denotes, whether or not the fields on the way are embedded;
      None where following it would panic, the struct itself for the empty path. */
  function ByIndex(T: Types, root: StructId, p: seq<nat>): (f: Option<Field>)
    requires WFTypes(T) && root < |T|
    ensures f.Some? && !f.value.typ.OtherT? ==> f.value.typ.id < |T|
  {
    if p == [] then Some(Field("", false, StructT(root)))
    else
      var n := |p| - 1;
      var f := ByIndex(T, root, p[..n]);
      if f.None? || f.value.typ.OtherT? || p[n] >= |T[f.value.typ.id]| then None
      else Some(T[f.value.typ.id][p[n]])
  }

  /** FieldByIndex: the loop over an index path, dereferencing *S to S between steps. */
  method FieldByIndex(T: Types, root: StructId, index: seq<nat>) returns (f: Option<Field>)
    requires WFTypes(T) && root < |T|
    ensures f == ByIndex(T, root, index)
  {
    f := Some(Field("", false, StructT(root)));
    for i := 0 to |index|
      invariant f == ByIndex(T, root, index[..i])
    {
      assert index[..i + 1][..i] == index[..i];
      if f.None? { continue; }
      var ft := f.value.typ;
      if i > 0 && ft.PtrToStruct? { ft := StructT(ft.id); }
      f := if ft.OtherT? || index[i] >= |T[ft.id]| then None else Some(T[ft.id][index[i]]);
    }
    assert index[..|index|] == index;
  }

  lemma {:induction false} WalkByIndex(T: Types, root: StructId, p: seq<nat>)
    requires WFTypes(T) && root < |T| && Walk(T, root, p).Some?
    ensures var f := ByIndex(T, root, p); f.Some? && !f.value.typ.OtherT? && f.value.typ.id == Walk(T, root, p).value
  {
    if p != [] { WalkByIndex(T, root, p[..|p| - 1]); }
  }

  /** The index FieldByNameFunc reports leads FieldByIndex back to the field it found. */
  lemma IndexLeadsBack(T: Types, root: StructId, m: string -> bool, p: seq<nat>)
    requires WFTypes(T) && root < |T| && Selected(T, root, m, p)
    ensures ByIndex(T, root, p) == Some(FieldAt(T, root, p))
    ensures m(FieldAt(T, root, p).name)
  {
    WalkByIndex(T, root, p[..|p| - 1]);
  }

  function Named(name: string): string -> bool { (s: string) => s == name }

  /** Two fields of the struct itself share the name, as blank fields can. */
  ghost predicate OwnTwins(T: Types, root: StructId, name: string)
    requires root < |T|
  {
    exists i, j :: 0 <= i < j < |T[root]| && T[root][i].name == name == T[root][j].name
  }

  lemma OwnMatch(T: Types, root: StructId, m: string -> bool, i: nat)
    requires WFTypes(T) && root < |T| && i < |T[root]|
    ensures Match(T, root, m, [i]) <==> m(T[root][i].name)
    ensures FieldAt(T, root, [i]) == T[root][i]
  {
    assert [i][..0] == [];
  }

  lemma MatchStarts(T: Types, root: StructId, m: string -> bool, p: seq<nat>)
    requires WFTypes(T) && root < |T| && Match(T, root, m, p)
    ensures exists t, i | 0 <= t < |T| && 0 <= i < |T[t]| :: m(T[t][i].name)
    ensures p[0] < |T[root]| && (if |p| == 1 then m(T[root][p[0]].name) else T[root][p[0]].embedded)
  {
    if |p| > 1 { EmbedsToGoDeep(T, root, p[..|p| - 1]); }
    assert m(T[Walk(T, root, p[..|p| - 1]).value][p[|p| - 1]].name);
  }

  lemma {:induction false} EmbedsToGoDeep(T: Types, root: StructId, p: seq<nat>)
    requires WFTypes(T) && root < |T| && p != [] && Walk(T, root, p).Some?
    ensures p[0] < |T[root]| && T[root][p[0]].embedded
    decreases |p|
  {
    if |p| == 1 {
      assert p[..0] == [];
    } else {
      EmbedsToGoDeep(T, root, p[..|p| - 1]);
    }
  }

  /** FieldByName: the quick scan of the struct's own fields, then the full search.  It
      agrees with the rule of FieldByNameFunc unless the struct itself declares the name
      twice: then the rule selects nothing, and the quick scan reports the first twin. */
  method FieldByName(T: Types, root: StructId, name: string) returns (result: StructField, ok: bool)
    requires WFTypes(T) && root < |T|
    ensures ok ==> result.StructField? && Match(T, root, Named(name), result.index)
    ensures ok ==> result.field == FieldAt(T, root, result.index)
    ensures !OwnTwins(T, root, name) && ok ==> Selected(T, root, Named(name), result.index)
    ensures !ok ==> forall p :: !Selected(T, root, Named(name), p)
    ensures OwnTwins(T, root, name) ==> ok && forall p :: !Selected(T, root, Named(name), p)
    ensures forall i | 0 <= i < |T[root]| && T[root][i].name == name
      && (forall j | 0 <= j < i :: T[root][j].name != name) ::
              ok && result.index == [i]
  {
    var m := Named(name);
    var hasEmbeds := false;
    if name != "" {
      for i := 0 to |T[root]|
        invariant forall j | 0 <= j < i :: T[root][j].name != name
        invariant !hasEmbeds ==> forall j | 0 <= j < i :: !T[root][j].embedded
      {
        if T[root][i].name == name {
          OwnMatch(T, root, m, i);
          OwnFieldFirst(T, root, name, i);
          return StructField(T[root][i], [i]), true;
        }
        if T[root][i].embedded { hasEmbeds := true; }
      }
    }
    if !hasEmbeds {
      forall p | Match(T, root, m, p) ensures false { MatchStarts(T, root, m, p); }
      return NoField, false;
    }
    result, ok := FieldByNameFunc(T, root, m);
  }

  /** A field of the struct itself is selected unless it has a twin; twins select nothing. */
  lemma OwnFieldFirst(T: Types, root: StructId, name: string, i: nat)
    requires WFTypes(T) && root < |T| && i < |T[root]| && T[root][i].name == name
    ensures OwnTwins(T, root, name) ==> forall p :: !Selected(T, root, Named(name), p)
    ensures !OwnTwins(T, root, name) ==> Selected(T, root, Named(name), [i])
  {
    var m := Named(name);
    OwnMatch(T, root, m, i);
    if OwnTwins(T, root, name) {
      var j, k :| 0 <= j < k < |T[root]| && T[root][j].name == name == T[root][k].name;
      OwnMatch(T, root, m, j);
      OwnMatch(T, root, m, k);
      assert [j][0] != [k][0];
    } else {
      forall q | Match(T, root, m, q) ensures q == [i] || 1 < |q| {
        if |q| == 1 { assert q == [q[0]]; OwnMatch(T, root, m, q[0]); }
      }
    }
  }

  /** Twins at work: a struct with two blank fields, asked for the field "_". */
  lemma TwinsDisagree()
    ensures var T: Types := [[Field("_", false, OtherT(0)), Field("_", false, OtherT(1))]];
            && WFTypes(T) && OwnTwins(T, 0, "_") && Match(T, 0, Named("_"), [0]) && Match(T, 0, Named("_"), [1])
            && forall p :: !Selected(T, 0, Named("_"), p)
  {
    var T: Types := [[Field("_", false, OtherT(0)), Field("_", false, OtherT(1))]];
    assert T[0][0].name == "_" == T[0][1].name;
    OwnMatch(T, 0, Named("_"), 0);
    OwnMatch(T, 0, Named("_"), 1);
    OwnFieldFirst(T, 0, "_", 0);
  }

  // ---------- which fields are promoted, told by FieldByIndex alone ----------

  /** An embedded field of a struct type or of a pointer to one. */
  predicate Embedding(f: Option<Field>)
  {
    f.Some? && f.value.embedded && (f.value.typ.StructT? || f.value.typ.PtrToStruct?)
  }

  lemma {:induction false} WalkMeans(T: Types, root: StructId, q: seq<nat>)
    requires WFTypes(T) && root < |T|
    ensures Walk(T, root, q).Some? <==> forall k | 0 < k <= |q| :: Embedding(ByIndex(T, root, q[..k]))
    decreases |q|
  {
    if q != [] {
      var n := |q| - 1;
      WalkMeans(T, root, q[..n]);
      assert forall k | 0 < k <= n :: q[..n][..k] == q[..k];
      assert q[..|q|] == q;
      if Walk(T, root, q[..n]).Some? { WalkByIndex(T, root, q[..n]); }
    }
  }

  /** A path matches if and only if it leads to a field with a matching name, and all fields
      on the way are embedded structs or embedded pointers to structs. */
  lemma MatchMeans(T: Types, root: StructId, m: string -> bool, p: seq<nat>)
    requires WFTypes(T) && root < |T| && p != []
    ensures Match(T, root, m, p) <==>
              && ByIndex(T, root, p).Some? && m(ByIndex(T, root, p).value.name)
              && forall k | 0 < k < |p| :: Embedding(ByIndex(T, root, p[..k]))
  {
    var q := p[..|p| - 1];
    WalkMeans(T, root, q);
    assert forall k | 0 < k <= |q| :: q[..k] == p[..k];
    if Walk(T, root, q).Some? { WalkByIndex(T, root, q); }
  }

  /** The fields of an embedded struct are promoted, and so are those of a struct to which an
      embedded pointer leads. */
  lemma Promotes(T: Types, root: StructId, m: string -> bool, i: nat, s: StructId, j: nat)
    requires WFTypes(T) && root < |T| && i < |T[root]| && T[root][i].embedded
    requires T[root][i].typ == StructT(s) || T[root][i].typ == PtrToStruct(s)
    ensures s < |T| && (Match(T, root, m, [i, j]) <==> j < |T[s]| && m(T[s][j].name))
  {
    assert [i, j][..1] == [i] && [i][..0] == [];
    assert Walk(T, root, [i]) == Some(s);
  }

  /** Nothing else is promoted through. */
  lemma NotPromotes(T: Types, root: StructId, m: string -> bool, p: seq<nat>)
    requires WFTypes(T) && root < |T| && |p| > 1 && p[0] < |T[root]|
    requires !T[root][p[0]].embedded || T[root][p[0]].typ.OtherT?
    ensures !Match(T, root, m, p)
  {
    MatchMeans(T, root, m, p);
    assert p[..1] == [p[0]] && [p[0]][..0] == [];
    assert ByIndex(T, root, p[..1]) == Some(T[root][p[0]]);
  }

  /** One more step, for any path: if p leads through embedded fields to one of struct type s,
      or to a pointer to it, then p extended matches exactly as field j of s does. */
  lemma PromotesFurther(T: Types, root: StructId, m: string -> bool, p: seq<nat>, s: StructId, j: nat)
    requires WFTypes(T) && root < |T| && p != []
    requires forall k | 0 < k < |p| :: Embedding(ByIndex(T, root, p[..k]))
    requires Embedding(ByIndex(T, root, p)) && ByIndex(T, root, p).value.typ in {StructT(s), PtrToStruct(s)}
    ensures s < |T| && (Match(T, root, m, p + [j]) <==> j < |T[s]| && m(T[s][j].name))
  {
    var q := p + [j];
    assert p == q[..|p|];
    assert forall k | 0 < k < |q| :: q[..k] == p[..k];
    MatchMeans(T, root, m, q);
  }

  /** A struct with an embedded pointer to one that has a field X. */
  lemma PointerPromotes()
    ensures var T: Types := [[Field("Inner", true, PtrToStruct(1))], [Field("X", false, OtherT(0))]];
            WFTypes(T) && Selected(T, 0, Named("X"), [0, 0])
  {
    var T: Types := [[Field("Inner", true, PtrToStruct(1))], [Field("X", false, OtherT(0))]];
    var m := Named("X");
    Promotes(T, 0, m, 0, 1, 0);
    forall q | Match(T, 0, m, q) ensures q == [0, 0] || 2 < |q| {
      MatchStarts(T, 0, m, q);
      if |q| == 2 {
        Promotes(T, 0, m, 0, 1, q[1]);
        assert q == [0, q[1]];
      }
    }
  }
}
