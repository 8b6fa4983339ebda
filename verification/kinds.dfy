/** The registry's own enumerations, the engine's compile-time constants they are
    decoded from, the three classification converters, and the faults that end the
    process in the C code. */
module Kinds {
  import opened Wrappers
  import opened CStrings

  /** genre_t: the zone of the state vector a variable lives in. */
  datatype Genre = GSaisie | GCalculee | GBase

  /** domaine_t: the descriptor table an input variable comes from. */
  datatype Domaine = DIndefini | DContexte | DFamille | DRevenu | DRevenuCorr | DVariation | DPenalite

  /** type_t: the value type of a variable. */
  datatype VarType = TReel | TBooleen | TDate

  /** nature_t: the nature of a variable. */
  datatype Nature = NIndefinie | NRevenu | NCharge

  /** Constants of the generated engine's headers (calc/const.h, calc/conf.h): the
      bit masks that split a descriptor's `indice` into a kind tag and a position,
      the zone sizes of the state vector, and the raw type codes. Their values belong
      to the engine, so the model takes them as a parameter. */
  datatype Conf = Conf(
    estMasque: bv32, estSaisie: bv32, estCalculee: bv32, estBase: bv32,
    indiceVal: bv32,
    tailleSaisie: nat, tailleCalculee: nat, tailleTotale: nat,
    booleen: int, entier: int, reel: int,
    dateJJMMAAAA: int, dateMMAAAA: int, dateAAAA: int, dateJJMM: int, dateMM: int)
  {
    /** The case labels of each `switch` are pairwise distinct, as a C compiler demands. */
    predicate Valid() {
      && estSaisie != estCalculee && estSaisie != estBase && estCalculee != estBase
      && |{booleen, entier, reel, dateJJMMAAAA, dateMMAAAA, dateAAAA, dateJJMM, dateMM}| == 8
    }

    /** The raw type codes that stand for each value type. */
    function TypeCodes(t: VarType): set<int> {
      match t
      case TBooleen => {booleen}
      case TReel => {entier, reel}
      case TDate => {dateJJMMAAAA, dateMMAAAA, dateAAAA, dateJJMM, dateMM}
    }

    /** The kind tag that stands for each genre. */
    function GenreTag(g: Genre): bv32 {
      match g
      case GSaisie => estSaisie
      case GCalculee => estCalculee
      case GBase => estBase
    }
  }

  /** The reasons for which the C code prints a message and calls exit(1). */
  datatype Fault =
    | BadGenre(tag: bv32)            // convert_genre default case
    | BadType(typeCode: int)         // convert_type default case
    | BadNature(natureCode: int)     // convert_nature default case
    | SlotTaken(id: nat)             // a filling pass finds `desc` already set
    | SlotUndefined(id: nat)         // an annotating pass finds `desc` unset
    | NoAlias(id: nat)               // the debug pass finds an input slot without alias
    | SlotOutOfRange(id: nat)        // an index past the slot array (no check in C)
    | NullIndexArgument              // add_var_to_index given NULL
    | UnknownVariable(code: Code)    // convert_tgv_to_c: cherche_var gave NULL
    | UndefinedCode(slot: nat)       // a slot scan meets a NULL code
    | UnknownChain(name: Code)       // ml_exec_ench: no chain of that name
    | UnknownVerification(name: Code) // ml_exec_verif: no verification of that name

  /** convert_genre: decodes the kind tag `indice & EST_MASQUE`; any other tag
      aborts, naming the tag. */
  function ConvertGenre(c: Conf, indice: bv32): (r: Result<Genre, Fault>)
    requires c.Valid()
    ensures forall g :: r == Ok(g) <==> indice & c.estMasque == c.GenreTag(g)
    ensures r.Err? <==> indice & c.estMasque !in {c.estSaisie, c.estCalculee, c.estBase}
    ensures r.Err? ==> r.error == BadGenre(indice & c.estMasque)
  {
    var tag := indice & c.estMasque;
    if tag == c.estSaisie then Ok(GSaisie)
    else if tag == c.estCalculee then Ok(GCalculee)
    else if tag == c.estBase then Ok(GBase)
    else Err(BadGenre(tag))
  }

  /** convert_type: BOOLEEN gives TBooleen, ENTIER and REEL give TReel (there is no
      integer type), the five DATE_* codes give TDate; any other code aborts. */
  function ConvertType(c: Conf, typeDonnee: int): (r: Result<VarType, Fault>)
    requires c.Valid()
    ensures forall t :: r == Ok(t) <==> typeDonnee in c.TypeCodes(t)
    ensures r.Err? ==> r.error == BadType(typeDonnee)
  {
    if typeDonnee == c.booleen then Ok(TBooleen)
    else if typeDonnee == c.entier then Ok(TReel)
    else if typeDonnee == c.reel then Ok(TReel)
    else if typeDonnee in {c.dateJJMMAAAA, c.dateMMAAAA, c.dateAAAA, c.dateJJMM, c.dateMM} then Ok(TDate)
    else Err(BadType(typeDonnee))
  }

  /** The raw nature code convert_nature accepts for each nature. */
  function NatureCode(n: Nature): int {
    match n
    case NIndefinie => -1
    case NRevenu => 0
    case NCharge => 1
  }

  /** convert_nature: -1, 0 and 1 give NIndefinie, NRevenu and NCharge; any other code aborts. */
  function ConvertNature(natCode: int): (r: Result<Nature, Fault>)
    ensures forall n :: r == Ok(n) <==> natCode == NatureCode(n)
    ensures r.Err? <==> natCode !in {-1, 0, 1}
    ensures r.Err? ==> r.error == BadNature(natCode)
  {
    if natCode == -1 then Ok(NIndefinie)
    else if natCode == 0 then Ok(NRevenu)
    else if natCode == 1 then Ok(NCharge)
    else Err(BadNature(natCode))
  }

  /** convert_type is onto: every value type is what some code converts to. */
  lemma ConvertTypeOnto(c: Conf, t: VarType)
    requires c.Valid()
    ensures exists code :: code in c.TypeCodes(t) && ConvertType(c, code) == Ok(t)
  {
    match t
    case TBooleen => assert c.booleen in c.TypeCodes(t);
    case TReel => assert c.reel in c.TypeCodes(t);
    case TDate => assert c.dateMM in c.TypeCodes(t);
  }
}
