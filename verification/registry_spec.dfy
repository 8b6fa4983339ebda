/** What init_var_dict builds, as functions over the slot array and the index
    entries: one function per pass over a descriptor table, the compaction of
    array slots, and the lemmas that say what each pass may and may not change. */
module RegistrySpec {
  import opened Wrappers
  import opened CStrings
  import opened Kinds
  import opened Index

  /** The six descriptor tables of input variables, one per input domain. */
  datatype InputTable = IContexte | IFamille | IRevenu | IRevenuCorrec | IVariation | IPenalite

  /** A descriptor table a slot can point into. */
  datatype TableName = Input(it: InputTable) | Debug01

  /** A `T_desc_var *`: the table and the position of the descriptor in it. */
  datatype DescRef = DescRef(table: TableName, pos: nat)

  /** One generated descriptor record. The tables share this shape; a field a
      table does not have is never read for it. */
  datatype Desc = Desc(
    indice: bv32, nom: Code, typeDonnee: int, natCode: int, modcat: int,
    classe: int, categorieTl: int, cotsoc: int, indAbat: int, rapcat: int,
    sanction: int, acompte: int, avfisc: int)

  /** The descriptor tables the registry is built from (generated static data). */
  datatype Tables = Tables(
    contexte: seq<Desc>, famille: seq<Desc>, revenu: seq<Desc>, revenuCorrec: seq<Desc>,
    variation: seq<Desc>, penalite: seq<Desc>, debug01: seq<Desc>, restituee: seq<Desc>)

  /** var_t: one slot of the registry. `code` and `alias` are NULL or a name. */
  datatype Var = Var(
    code: Option<Code>, alias: Option<Code>,
    genre: Genre, domaine: Domaine, typ: VarType, nature: Nature,
    classe: int, catTl: int, cotSoc: int, indAbat: bool, rapCat: int, sanction: int,
    cat1731b: int, indiceTab: int, acompte: bool, avfisc: int, restituee: bool,
    desc: Option<DescRef>)

  /** A zero-initialised slot of the static array. The enumeration fields hold
      values no enumerator has in C; any representative does, since such a slot
      has a NULL code and is never reported. */
  const Blank := Var(None, None, GSaisie, DIndefini, TReel, NIndefinie,
                     0, 0, 0, false, 0, 0, 0, 0, false, 0, false, None)

  /** The registry as a value: the slot array and the index entries in insertion order. */
  datatype St = St(vars: seq<Var>, entries: seq<Entry>)

  /** The initial registry: TAILLE_TOTALE blank slots, an empty index. */
  function Initial(c: Conf): (st: St)
    ensures |st.vars| == c.tailleTotale && st.entries == []
    ensures forall k :: 0 <= k < |st.vars| ==> st.vars[k].code.None? && st.vars[k].desc.None?
  {
    St(seq(c.tailleTotale, _ => Blank), [])
  }

  function DomaineOf(it: InputTable): Domaine {
    match it
    case IContexte => DContexte
    case IFamille => DFamille
    case IRevenu => DRevenu
    case IRevenuCorrec => DRevenuCorr
    case IVariation => DVariation
    case IPenalite => DPenalite
  }

  /** `indice & INDICE_VAL`: the position part of a descriptor's index. */
  function Masked(c: Conf, indice: bv32): nat {
    (indice & c.indiceVal) as int
  }

  /** The state vector is split into three consecutive zones: TAILLE_SAISIE
      input slots, then TAILLE_CALCULEE computed slots, then the base slots up
      to TAILLE_TOTALE. */
  function ZoneStart(c: Conf, g: Genre): nat {
    match g
    case GSaisie => 0
    case GCalculee => c.tailleSaisie
    case GBase => c.tailleSaisie + c.tailleCalculee
  }

  function ZoneSize(c: Conf, g: Genre): int {
    match g
    case GSaisie => c.tailleSaisie
    case GCalculee => c.tailleCalculee
    case GBase => c.tailleTotale - c.tailleSaisie - c.tailleCalculee
  }

  /** The slot of a descriptor of the given genre: its masked position, counted
      from the start of the genre's zone. A position below the zone's size
      lands inside the zone. */
  function SlotId(c: Conf, g: Genre, indice: bv32): (id: nat)
    ensures ZoneStart(c, g) <= id
    ensures Masked(c, indice) < ZoneSize(c, g) ==> id < ZoneStart(c, g) + ZoneSize(c, g)
  {
    ZoneStart(c, g) + Masked(c, indice)
  }

  /** Positions inside their zones give the same slot exactly when genre and
      position agree: records of different genres never share a slot. */
  lemma SlotIdZones(c: Conf, g1: Genre, i1: bv32, g2: Genre, i2: bv32)
    requires Masked(c, i1) < ZoneSize(c, g1) && Masked(c, i2) < ZoneSize(c, g2)
    ensures SlotId(c, g1, i1) == SlotId(c, g2, i2) <==> g1 == g2 && Masked(c, i1) == Masked(c, i2)
  {
    ZonesDisjoint(c, g1, Masked(c, i1), g2, Masked(c, i2));
  }

  /** The zones are laid end to end: a position inside one zone never lands in another. */
  lemma ZonesDisjoint(c: Conf, g1: Genre, m1: nat, g2: Genre, m2: nat)
    requires m1 < ZoneSize(c, g1) && m2 < ZoneSize(c, g2)
    ensures ZoneStart(c, g1) + m1 == ZoneStart(c, g2) + m2 <==> g1 == g2 && m1 == m2
  {
    if g1 != g2 {
      if ZoneStart(c, g1) < ZoneStart(c, g2) {
        assert ZoneStart(c, g1) + ZoneSize(c, g1) <= ZoneStart(c, g2);
      } else {
        assert ZoneStart(c, g2) + ZoneSize(c, g2) <= ZoneStart(c, g1);
      }
    }
  }

  /** The nature code an input table's pass converts: the context table has
      none and passes `modcat`; variation and penalty tables pass -1. */
  function InputNatCode(it: InputTable, d: Desc): int {
    match it
    case IContexte => d.modcat
    case IFamille => d.natCode
    case IRevenu => d.natCode
    case IRevenuCorrec => d.natCode
    case IVariation => -1
    case IPenalite => -1
  }

  /** The slot an input pass writes for record `d` at position `pos` of table
      `it`. Only the income tables carry social-contribution, rebate, category,
      sanction, instalment and tax-advantage fields; elsewhere those are -1 or
      false, except `ind_abat`, which the variation and penalty passes set from
      -1 and so to true. */
  function InputVar(c: Conf, it: InputTable, d: Desc, pos: nat): (r: Result<Var, Fault>)
    requires c.Valid()
    ensures r.Ok? <==> ConvertType(c, d.typeDonnee).Ok? && InputNatCode(it, d) in {-1, 0, 1}
    ensures r.Ok? ==> r.value.code.None? && r.value.alias == Some(d.nom) && r.value.genre == GSaisie
    ensures r.Ok? ==> r.value.desc == Some(DescRef(Input(it), pos)) && r.value.domaine == DomaineOf(it)
    ensures r.Ok? ==> r.value.indiceTab == -1 && !r.value.restituee
    ensures r.Ok? ==> r.value.typ == ConvertType(c, d.typeDonnee).value
    ensures r.Ok? ==> r.value.nature == ConvertNature(InputNatCode(it, d)).value
    ensures r.Ok? && (it == IVariation || it == IPenalite) ==> r.value.indAbat
  {
    var t :- ConvertType(c, d.typeDonnee);
    var n :- ConvertNature(InputNatCode(it, d));
    var income := it == IRevenu || it == IRevenuCorrec;
    Ok(Var(
      code := None, alias := Some(d.nom), genre := GSaisie, domaine := DomaineOf(it),
      typ := t, nature := n,
      classe := if it == IPenalite then -1 else d.classe,
      catTl := if it == IVariation || it == IPenalite then -1 else d.categorieTl,
      cotSoc := if income then d.cotsoc else -1,
      indAbat := if income then d.indAbat != 0 else it == IVariation || it == IPenalite,
      rapCat := if income then d.rapcat else -1,
      sanction := if income then d.sanction else -1,
      cat1731b := -1, indiceTab := -1,
      acompte := income && d.acompte != 0,
      avfisc := if income then d.avfisc else -1,
      restituee := false,
      desc := Some(DescRef(Input(it), pos))))
  }

  /** One iteration of an input pass: the record's slot must exist and have no
      descriptor yet; it is filled and its alias is added to the index. */
  function InputStep(c: Conf, it: InputTable, d: Desc, pos: nat, st: St): (r: Result<St, Fault>)
    requires c.Valid()
    ensures r.Ok? ==> |r.value.vars| == |st.vars| && r.value.entries == st.entries + [Entry(d.nom, Masked(c, d.indice))]
  {
    var id := Masked(c, d.indice);
    if id >= |st.vars| then Err(SlotOutOfRange(id))
    else if st.vars[id].desc.Some? then Err(SlotTaken(id))
    else
      var v :- InputVar(c, it, d, pos);
      Ok(St(st.vars[id := v], st.entries + [Entry(d.nom, id)]))
  }

  /** An input record succeeds exactly when its slot exists, has no descriptor
      yet and its codes convert; it then fills that slot alone and indexes the alias. */
  lemma InputStepSpec(c: Conf, it: InputTable, d: Desc, pos: nat, st: St)
    requires c.Valid()
    ensures var r := InputStep(c, it, d, pos, st);
      && (r.Ok? <==> Masked(c, d.indice) < |st.vars| && st.vars[Masked(c, d.indice)].desc.None?
                     && InputVar(c, it, d, pos).Ok?)
      && (r.Ok? ==> r.value.vars == st.vars[Masked(c, d.indice) := InputVar(c, it, d, pos).value])
      && (r.Ok? ==> r.value.entries == st.entries + [Entry(d.nom, Masked(c, d.indice))])
  {
  }

  /** The input pass over records i.. of one table; the first fault ends it. */
  function InputPass(c: Conf, it: InputTable, descs: seq<Desc>, i: nat, st: St): (r: Result<St, Fault>)
    requires c.Valid()
    ensures r.Ok? ==> |r.value.vars| == |st.vars|
    decreases |descs| - i
  {
    if i >= |descs| then Ok(st)
    else
      var st' :- InputStep(c, it, descs[i], i, st);
      InputPass(c, it, descs, i + 1, st')
  }

  /** The index entries an input pass adds, one per record, in table order. */
  function AliasEntries(c: Conf, descs: seq<Desc>, i: nat): seq<Entry>
    decreases |descs| - i
  {
    if i >= |descs| then [] else [Entry(descs[i].nom, Masked(c, descs[i].indice))] + AliasEntries(c, descs, i + 1)
  }

  /** The slot a computed or base record of the debug table describes. */
  function ComputedVar(c: Conf, g: Genre, d: Desc, pos: nat): (r: Result<Var, Fault>)
    requires c.Valid()
    ensures r.Ok? <==> ConvertType(c, d.typeDonnee).Ok? && d.natCode in {-1, 0, 1}
    ensures r.Ok? ==> r.value.code == Some(d.nom) && r.value.alias.None? && r.value.genre == g
    ensures r.Ok? ==> r.value.desc == Some(DescRef(Debug01, pos)) && r.value.domaine == DIndefini
    ensures r.Ok? ==> r.value.indiceTab == -1 && !r.value.restituee
  {
    var t :- ConvertType(c, d.typeDonnee);
    var n :- ConvertNature(d.natCode);
    Ok(Var(
      code := Some(d.nom), alias := None, genre := g, domaine := DIndefini,
      typ := t, nature := n,
      classe := d.classe, catTl := d.categorieTl, cotSoc := d.cotsoc,
      indAbat := d.indAbat != 0, rapCat := d.rapcat, sanction := d.sanction,
      cat1731b := -1, indiceTab := -1, acompte := false, avfisc := -1,
      restituee := false, desc := Some(DescRef(Debug01, pos))))
  }

  /** One record of the debug table. For an input slot it only checks the slot
      and, when its debug name is not the alias, gives it that name as code and
      indexes it; a computed or base record fills a free slot of its zone. */
  function DebugStep(c: Conf, d: Desc, pos: nat, st: St): (r: Result<St, Fault>)
    requires c.Valid()
    ensures r.Ok? ==> ConvertGenre(c, d.indice).Ok? && SlotId(c, ConvertGenre(c, d.indice).value, d.indice) < |st.vars|
  {
    var g :- ConvertGenre(c, d.indice);
    var id := SlotId(c, g, d.indice);
    if id >= |st.vars| then Err(SlotOutOfRange(id))
    else if g == GSaisie then
      if st.vars[id].desc.None? then Err(SlotUndefined(id))
      else if st.vars[id].alias.None? then Err(NoAlias(id))
      else if Cmp(st.vars[id].alias.value, d.nom) != 0 then
        Ok(St(st.vars[id := st.vars[id].(code := Some(d.nom))], st.entries + [Entry(d.nom, id)]))
      else
        Ok(st)
    else if st.vars[id].desc.Some? then Err(SlotTaken(id))
    else
      var v :- ComputedVar(c, g, d, pos);
      Ok(St(st.vars[id := v], st.entries + [Entry(d.nom, id)]))
  }

  /** A debug record for an input slot aborts unless the slot is described and
      has an alias; it renames and indexes the slot exactly when its name is not
      the alias, and otherwise changes nothing. */
  lemma DebugStepInput(c: Conf, d: Desc, pos: nat, st: St)
    requires c.Valid() && ConvertGenre(c, d.indice) == Ok(GSaisie)
    ensures var id := Masked(c, d.indice);
      DebugStep(c, d, pos, st).Ok? <==> id < |st.vars| && st.vars[id].desc.Some? && st.vars[id].alias.Some?
    ensures var id := Masked(c, d.indice);
      DebugStep(c, d, pos, st).Ok? && st.vars[id].alias.value == d.nom ==> DebugStep(c, d, pos, st).value == st
    ensures var id := Masked(c, d.indice);
      DebugStep(c, d, pos, st).Ok? && st.vars[id].alias.value != d.nom ==>
        DebugStep(c, d, pos, st).value
          == St(st.vars[id := st.vars[id].(code := Some(d.nom))], st.entries + [Entry(d.nom, id)])
  {
    var id := Masked(c, d.indice);
    if DebugStep(c, d, pos, st).Ok? {
      CmpZero(st.vars[id].alias.value, d.nom);
    }
  }

  /** A computed or base record lands in its zone, shifted past the input slots
      (and past the computed slots for a base record); it aborts if that slot is
      already described, and otherwise fills it and indexes its name. */
  lemma DebugStepComputed(c: Conf, d: Desc, pos: nat, st: St, g: Genre)
    requires c.Valid() && ConvertGenre(c, d.indice) == Ok(g) && g != GSaisie
    ensures var id := SlotId(c, g, d.indice);
      DebugStep(c, d, pos, st).Ok? <==> id < |st.vars| && st.vars[id].desc.None? && ComputedVar(c, g, d, pos).Ok?
    ensures var id := SlotId(c, g, d.indice);
      DebugStep(c, d, pos, st).Ok? ==>
        DebugStep(c, d, pos, st).value
          == St(st.vars[id := ComputedVar(c, g, d, pos).value], st.entries + [Entry(d.nom, id)])
  {
  }

  function DebugPass(c: Conf, descs: seq<Desc>, i: nat, st: St): (r: Result<St, Fault>)
    requires c.Valid()
    ensures r.Ok? ==> |r.value.vars| == |st.vars|
    decreases |descs| - i
  {
    if i >= |descs| then Ok(st)
    else
      var st' :- DebugStep(c, descs[i], i, st);
      DebugPass(c, descs, i + 1, st')
  }

  /** One record of the restituée table: its slot must be described; it is
      flagged as reported. */
  function RestitueeStep(c: Conf, d: Desc, vs: seq<Var>): (r: Result<seq<Var>, Fault>)
    requires c.Valid()
    ensures r.Ok? <==> ConvertGenre(c, d.indice).Ok? && SlotId(c, ConvertGenre(c, d.indice).value, d.indice) < |vs|
                       && vs[SlotId(c, ConvertGenre(c, d.indice).value, d.indice)].desc.Some?
    ensures r.Ok? ==> var id := SlotId(c, ConvertGenre(c, d.indice).value, d.indice);
                      r.value == vs[id := vs[id].(restituee := true)]
  {
    var g :- ConvertGenre(c, d.indice);
    var id := SlotId(c, g, d.indice);
    if id >= |vs| then Err(SlotOutOfRange(id))
    else if vs[id].desc.None? then Err(SlotUndefined(id))
    else Ok(vs[id := vs[id].(restituee := true)])
  }

  function RestitueePass(c: Conf, descs: seq<Desc>, i: nat, vs: seq<Var>): (r: Result<seq<Var>, Fault>)
    requires c.Valid()
    ensures r.Ok? ==> |r.value| == |vs|
    decreases |descs| - i
  {
    if i >= |descs| then Ok(vs)
    else
      var vs' :- RestitueeStep(c, descs[i], vs);
      RestitueePass(c, descs, i + 1, vs')
  }

  /** The head of the run slot j belongs to: the nearest slot at or before j that
      has a code, or slot 0. */
  function HeadOf(vs: seq<Var>, j: nat): (h: nat)
    requires j < |vs|
    ensures h <= j && (h == 0 || vs[h].code.Some?)
    ensures forall m :: h < m <= j ==> vs[m].code.None?
  {
    if j == 0 || vs[j].code.Some? then j else HeadOf(vs, j - 1)
  }

  /** What the compaction leaves in slot j: a slot after its head is the head
      with `indice_tab` its distance from the head; a head followed by such a
      slot gets `indice_tab` 0; a head alone is kept. */
  function CompactSlot(vs: seq<Var>, j: nat): (v: Var)
    requires j < |vs|
    ensures v.code == vs[HeadOf(vs, j)].code && v.desc == vs[HeadOf(vs, j)].desc
  {
    var h := HeadOf(vs, j);
    if h < j then vs[h].(indiceTab := j - h)
    else if j + 1 < |vs| && vs[j + 1].code.None? then vs[j].(indiceTab := 0)
    else vs[j]
  }

  function Compacted(vs: seq<Var>): (r: seq<Var>)
    ensures |r| == |vs|
  {
    seq(|vs|, j requires 0 <= j < |vs| => CompactSlot(vs, j))
  }

  /** The six input passes, in the order of init_var_dict. */
  function InputPasses(c: Conf, tb: Tables, st: St): (r: Result<St, Fault>)
    requires c.Valid()
    ensures r.Ok? ==> |r.value.vars| == |st.vars|
  {
    var s1 :- InputPass(c, IContexte, tb.contexte, 0, st);
    var s2 :- InputPass(c, IFamille, tb.famille, 0, s1);
    var s3 :- InputPass(c, IRevenu, tb.revenu, 0, s2);
    var s4 :- InputPass(c, IRevenuCorrec, tb.revenuCorrec, 0, s3);
    var s5 :- InputPass(c, IVariation, tb.variation, 0, s4);
    InputPass(c, IPenalite, tb.penalite, 0, s5)
  }

  /** The whole of init_var_dict on a registry that has not been built. */
  function Build(c: Conf, tb: Tables, st: St): (r: Result<St, Fault>)
    requires c.Valid()
    ensures r.Ok? ==> |r.value.vars| == |st.vars|
  {
    var s6 :- InputPasses(c, tb, st);
    var s7 :- DebugPass(c, tb.debug01, 0, s6);
    var vs :- RestitueePass(c, tb.restituee, 0, s7.vars);
    Ok(St(Compacted(vs), s7.entries))
  }

  // ---------------------------------------------------------------------
  // Input passes

  /** An input pass never overwrites a slot that already has a descriptor, and
      it appends the records' aliases to the index in table order. */
  lemma {:induction false} InputPassFrame(c: Conf, it: InputTable, descs: seq<Desc>, i: nat, st: St)
    requires c.Valid() && InputPass(c, it, descs, i, st).Ok?
    ensures var st' := InputPass(c, it, descs, i, st).value;
      && |st'.vars| == |st.vars|
      && (forall k :: 0 <= k < |st.vars| && st.vars[k].desc.Some? ==> st'.vars[k] == st.vars[k])
      && st'.entries == st.entries + AliasEntries(c, descs, i)
    decreases |descs| - i
  {
    if i < |descs| {
      InputStepSpec(c, it, descs[i], i, st);
      var s1 := InputStep(c, it, descs[i], i, st).value;
      InputPassFrame(c, it, descs, i + 1, s1);
    }
  }

  /** After a successful input pass every record's slot holds that record. */
  lemma {:induction false} InputPassDescribes(c: Conf, it: InputTable, descs: seq<Desc>, i: nat, st: St, r: nat)
    requires c.Valid() && InputPass(c, it, descs, i, st).Ok? && i <= r < |descs|
    ensures var st' := InputPass(c, it, descs, i, st).value;
      && Masked(c, descs[r].indice) < |st'.vars|
      && st'.vars[Masked(c, descs[r].indice)].desc == Some(DescRef(Input(it), r))
    decreases |descs| - i
  {
    InputStepSpec(c, it, descs[i], i, st);
    var s1 := InputStep(c, it, descs[i], i, st).value;
    if r == i {
      InputPassFrame(c, it, descs, i + 1, s1);
    } else {
      InputPassDescribes(c, it, descs, i + 1, s1, r);
    }
  }

  /** Two records of one table with the same slot abort the pass. */
  lemma InputPassRejectsDuplicates(c: Conf, it: InputTable, descs: seq<Desc>, st: St, r1: nat, r2: nat)
    requires c.Valid() && r1 < r2 < |descs|
    requires Masked(c, descs[r1].indice) == Masked(c, descs[r2].indice)
    ensures InputPass(c, it, descs, 0, st).Err?
  {
    if InputPass(c, it, descs, 0, st).Ok? {
      InputPassDescribes(c, it, descs, 0, st, r1);
      InputPassDescribes(c, it, descs, 0, st, r2);
    }
  }

  // ---------------------------------------------------------------------
  // Debug pass

  /** One debug record changes at most one slot and only appends to the index. */
  lemma DebugStepFrame(c: Conf, d: Desc, pos: nat, st: St)
    requires c.Valid() && DebugStep(c, d, pos, st).Ok?
    ensures DebugFrame(st, DebugStep(c, d, pos, st).value)
  {
    var g := ConvertGenre(c, d.indice).value;
    var id := SlotId(c, g, d.indice);
    if g == GSaisie {
      DebugStepInput(c, d, pos, st);
      assert id == Masked(c, d.indice);
      if st.vars[id].alias.value != d.nom {
        UpdateFrame(st, id, st.vars[id].(code := Some(d.nom)), Entry(d.nom, id));
      }
    } else {
      DebugStepComputed(c, d, pos, st, g);
      UpdateFrame(st, id, ComputedVar(c, g, d, pos).value, Entry(d.nom, id));
    }
  }

  /** What a debug record may do to the state: a described slot changes only
      by gaining a code, a newly described slot is a computed or base slot with
      a code, and the index only grows at its end. */
  ghost predicate DebugFrame(st: St, st': St) {
    && |st'.vars| == |st.vars|
    && (forall k :: 0 <= k < |st.vars| && st.vars[k].desc.Some? ==>
          st'.vars[k] == st.vars[k].(code := st'.vars[k].code)
          && (st'.vars[k].code == st.vars[k].code || st'.vars[k].code.Some?))
    && (forall k :: 0 <= k < |st.vars| && st.vars[k].desc.None? && st'.vars[k].desc.Some? ==>
          st'.vars[k].genre != GSaisie && st'.vars[k].code.Some?)
    && |st.entries| <= |st'.entries| && st'.entries[..|st.entries|] == st.entries
  }

  /** A single-slot update with one appended entry keeps the debug frame when
      the new slot does. */
  lemma UpdateFrame(st: St, id: nat, w: Var, e: Entry)
    requires id < |st.vars|
    requires st.vars[id].desc.Some? ==>
               w == st.vars[id].(code := w.code) && (w.code == st.vars[id].code || w.code.Some?)
    requires st.vars[id].desc.None? && w.desc.Some? ==> w.genre != GSaisie && w.code.Some?
    ensures DebugFrame(st, St(st.vars[id := w], st.entries + [e]))
  {
    var st' := St(st.vars[id := w], st.entries + [e]);
    assert st'.entries[..|st.entries|] == st.entries;
  }


  /** The debug pass changes no described slot except for giving an input slot
      a code. */
  lemma {:induction false} DebugPassKeepsDescribed(c: Conf, descs: seq<Desc>, i: nat, st: St)
    requires c.Valid() && DebugPass(c, descs, i, st).Ok?
    ensures var st' := DebugPass(c, descs, i, st).value;
      && |st'.vars| == |st.vars|
      && (forall k :: 0 <= k < |st.vars| && st.vars[k].desc.Some? ==>
            st'.vars[k] == st.vars[k].(code := st'.vars[k].code)
            && (st'.vars[k].code == st.vars[k].code || st'.vars[k].code.Some?))
    decreases |descs| - i
  {
    if i < |descs| {
      var s1 := DebugStep(c, descs[i], i, st).value;
      DebugStepFrame(c, descs[i], i, st);
      DebugPassKeepsDescribed(c, descs, i + 1, s1);
    }
  }

  /** Every slot the debug pass describes anew is a computed or base slot with a
      code: the pass creates no input slot. */
  lemma {:induction false} DebugPassCreatesComputed(c: Conf, descs: seq<Desc>, i: nat, st: St)
    requires c.Valid() && DebugPass(c, descs, i, st).Ok?
    ensures var st' := DebugPass(c, descs, i, st).value;
      && |st'.vars| == |st.vars|
      && (forall k :: 0 <= k < |st.vars| && st.vars[k].desc.None? && st'.vars[k].desc.Some? ==>
            st'.vars[k].genre != GSaisie && st'.vars[k].code.Some?)
    decreases |descs| - i
  {
    if i < |descs| {
      var s1 := DebugStep(c, descs[i], i, st).value;
      DebugStepFrame(c, descs[i], i, st);
      DebugPassCreatesComputed(c, descs, i + 1, s1);
      DebugPassKeepsDescribed(c, descs, i + 1, s1);
    }
  }

  /** The debug pass only appends to the index. */
  lemma {:induction false} DebugPassAppends(c: Conf, descs: seq<Desc>, i: nat, st: St)
    requires c.Valid() && DebugPass(c, descs, i, st).Ok?
    ensures var st' := DebugPass(c, descs, i, st).value;
      |st.entries| <= |st'.entries| && st'.entries[..|st.entries|] == st.entries
    decreases |descs| - i
  {
    if i < |descs| {
      var s1 := DebugStep(c, descs[i], i, st).value;
      DebugStepFrame(c, descs[i], i, st);
      DebugPassAppends(c, descs, i + 1, s1);
      var st' := DebugPass(c, descs, i, st).value;
      assert st'.entries[..|s1.entries|] == s1.entries;
      assert s1.entries[..|st.entries|] == st.entries;
    }
  }

  // ---------------------------------------------------------------------
  // Restituée pass

  /** The slot a restituée record flags. */
  function FlaggedSlot(c: Conf, d: Desc): Option<nat>
    requires c.Valid()
  {
    match ConvertGenre(c, d.indice)
    case Ok(g) => Some(SlotId(c, g, d.indice))
    case Err(_) => None
  }

  /** The restituée pass changes nothing but the flag and never clears it. */
  lemma {:induction false} RestitueePassOnlyFlags(c: Conf, descs: seq<Desc>, i: nat, vs: seq<Var>)
    requires c.Valid() && RestitueePass(c, descs, i, vs).Ok?
    ensures var vs' := RestitueePass(c, descs, i, vs).value;
      && |vs'| == |vs|
      && (forall k :: 0 <= k < |vs| ==> vs'[k] == vs[k].(restituee := vs'[k].restituee))
      && (forall k :: 0 <= k < |vs| && vs[k].restituee ==> vs'[k].restituee)
    decreases |descs| - i
  {
    if i < |descs| {
      var v1 := RestitueeStep(c, descs[i], vs).value;
      RestitueePassOnlyFlags(c, descs, i + 1, v1);
    }
  }

  /** The pass flags the slot of every record, and a slot it flags anew is the
      slot of some record. */
  lemma {:induction false} RestitueePassFlagsRecords(c: Conf, descs: seq<Desc>, i: nat, vs: seq<Var>)
    requires c.Valid() && RestitueePass(c, descs, i, vs).Ok?
    ensures var vs' := RestitueePass(c, descs, i, vs).value;
      && |vs'| == |vs|
      && (forall r :: i <= r < |descs| ==>
            FlaggedSlot(c, descs[r]).Some? && FlaggedSlot(c, descs[r]).value < |vs|
            && vs'[FlaggedSlot(c, descs[r]).value].restituee)
      && (forall k :: 0 <= k < |vs| && vs'[k].restituee && !vs[k].restituee ==>
            exists r :: i <= r < |descs| && FlaggedSlot(c, descs[r]) == Some(k))
    decreases |descs| - i
  {
    if i < |descs| {
      var v1 := RestitueeStep(c, descs[i], vs).value;
      RestitueePassFlagsRecords(c, descs, i + 1, v1);
      RestitueePassOnlyFlags(c, descs, i + 1, v1);
    }
  }

  // ---------------------------------------------------------------------
  // Compaction

  /** A slot with a code keeps everything but possibly its `indice_tab`, which
      becomes 0 exactly when the next slot has no code; slot 0 is treated alike. */
  lemma CompactKeepsHeads(vs: seq<Var>, j: nat)
    requires j < |vs| && (j == 0 || vs[j].code.Some?)
    ensures Compacted(vs)[j] == vs[j].(indiceTab := Compacted(vs)[j].indiceTab)
    ensures j + 1 < |vs| && vs[j + 1].code.None? ==> Compacted(vs)[j].indiceTab == 0
    ensures !(j + 1 < |vs| && vs[j + 1].code.None?) ==> Compacted(vs)[j] == vs[j]
  {
    assert HeadOf(vs, j) == j;
  }

  /** A run: the head h, then slots h+1..e-1 without code, ended by a coded slot
      or the end of the array. After compaction every slot of the run is a copy
      of the head numbered by its distance from the head, when the run is longer
      than one slot. */
  lemma CompactRun(vs: seq<Var>, h: nat, e: nat, j: nat)
    requires h < j < e <= |vs| && (h == 0 || vs[h].code.Some?)
    requires forall m :: h < m < e ==> vs[m].code.None?
    ensures Compacted(vs)[j] == vs[h].(indiceTab := j - h)
    ensures Compacted(vs)[h] == vs[h].(indiceTab := 0)
  {
    assert HeadOf(vs, j) == h;
    assert HeadOf(vs, h) == h;
  }

  /** When slot 0 has a code every slot has one after compaction. */
  lemma {:induction false} CompactAllCoded(vs: seq<Var>, j: nat)
    requires 0 < |vs| && vs[0].code.Some? && j < |vs|
    ensures Compacted(vs)[j].code.Some?
  {
    var h := HeadOf(vs, j);
    assert h == 0 || vs[h].code.Some?;
  }

  /** A slot without code is overwritten by its head, descriptor included, even
      when an input pass had filled it. */
  lemma CompactOverwritesUncoded(vs: seq<Var>, j: nat)
    requires 0 < j < |vs| && vs[j].code.None?
    ensures Compacted(vs)[j].desc == vs[HeadOf(vs, j)].desc
    ensures Compacted(vs)[j].code == vs[HeadOf(vs, j)].code
    ensures 0 < Compacted(vs)[j].indiceTab
  {
  }

  // ---------------------------------------------------------------------
  // The slot scan of ml_charge_vars

  /** The 16 fields ml_charge_vars reports for a slot (all but `cat_1731b` and
      `desc`), with the code no longer optional. */
  datatype VarInfo = VarInfo(
    code: Code, alias: Option<Code>, genre: Genre, domaine: Domaine, typ: VarType,
    nature: Nature, classe: int, catTl: int, cotSoc: int, indAbat: bool, rapCat: int,
    sanction: int, indiceTab: int, acompte: bool, avfisc: int, restituee: bool)

  function Info(v: Var): VarInfo
    requires v.code.Some?
  {
    VarInfo(v.code.value, v.alias, v.genre, v.domaine, v.typ, v.nature, v.classe, v.catTl,
            v.cotSoc, v.indAbat, v.rapCat, v.sanction, v.indiceTab, v.acompte, v.avfisc,
            v.restituee)
  }

  /** The scan over slots 0..n-1: a slot without code aborts, every other slot is
      put in front of the list built so far. */
  function Catalogue(vs: seq<Var>, n: nat): (r: Result<seq<VarInfo>, Fault>)
    requires n <= |vs|
    ensures r.Ok? ==> |r.value| == n
  {
    if n == 0 then Ok([])
    else
      var acc :- Catalogue(vs, n - 1);
      if vs[n - 1].code.None? then Err(UndefinedCode(n - 1))
      else Ok([Info(vs[n - 1])] + acc)
  }

  /** The scan succeeds exactly when every slot has a code; it then lists every
      slot, last slot first. */
  lemma {:induction false} CatalogueOk(vs: seq<Var>, n: nat)
    requires n <= |vs|
    ensures Catalogue(vs, n).Ok? <==> forall k :: 0 <= k < n ==> vs[k].code.Some?
    ensures Catalogue(vs, n).Ok? ==>
      var r := Catalogue(vs, n).value;
      |r| == n && forall k :: 0 <= k < n ==> vs[n - 1 - k].code.Some? && r[k] == Info(vs[n - 1 - k])
  {
    if n > 0 {
      CatalogueOk(vs, n - 1);
    }
  }

  /** When it fails, it names the first slot without code. */
  lemma {:induction false} CatalogueFault(vs: seq<Var>, n: nat)
    requires n <= |vs| && Catalogue(vs, n).Err?
    ensures var e := Catalogue(vs, n).error;
      && e.UndefinedCode? && e.slot < n && vs[e.slot].code.None?
      && forall k :: 0 <= k < e.slot ==> vs[k].code.Some?
  {
    if Catalogue(vs, n - 1).Err? {
      CatalogueFault(vs, n - 1);
    } else {
      CatalogueOk(vs, n - 1);
    }
  }
}
