/** The compiled-in MPA rating table (`Enum/MpaRating.java`) and its lookup by id. */
module MpaRatings {
  import opened Wrappers
  import opened JavaText
  import Seqs
  import Model

  datatype MpaRating = G | PG | PG13 | R | NC17
  {
    function Id(): int
    {
      match this
      case G => 1
      case PG => 2
      case PG13 => 3
      case R => 4
      case NC17 => 5
    }

    function NameWithDash(): string
    {
      match this
      case G => "G"
      case PG => "PG"
      case PG13 => "PG-13"
      case R => "R"
      case NC17 => "NC-17"
    }
  }

  /** `MpaRating.values()`, in declaration order. */
  const Values: seq<MpaRating> := [G, PG, PG13, R, NC17]

  function IdOf(r: MpaRating): int
  {
    r.Id()
  }

  /** The message `fromId` throws with. */
  function UnknownIdMessage(id: int): string
  {
    "Неверный id MPA рейтинга: " + DecimalString(id)
  }

  /** `MpaRating.fromId`: the rating with that id, or NotFoundException. */
  function FromId(id: int): (r: Result<MpaRating, Model.Error>)
    ensures r.Success? <==> 1 <= id <= 5
    ensures r.Success? ==> r.value.Id() == id
    ensures r.Failure? ==> r.error == Model.NotFoundException(UnknownIdMessage(id))
  {
    assert 1 <= id <= 5 ==> Values[id - 1] in Values && IdOf(Values[id - 1]) == id;
    match Seqs.FindFirst(Values, IdOf, id)
    case Some(rating) => Success(rating)
    case None => Failure(Model.NotFoundException(UnknownIdMessage(id)))
  }

  /** Five ratings with ids 1 to 5, in the order G, PG, PG-13, R, NC-17, each listed once. */
  lemma TableShape()
    ensures |Values| == 5
    ensures forall i :: 0 <= i < |Values| ==> Values[i].Id() == i + 1
    ensures forall r: MpaRating :: r in Values
    ensures Seqs.NoDuplicates(Values)
    ensures [Values[0].NameWithDash(), Values[1].NameWithDash(), Values[2].NameWithDash(),
             Values[3].NameWithDash(), Values[4].NameWithDash()] == ["G", "PG", "PG-13", "R", "NC-17"]
  {
    forall r: MpaRating ensures r in Values {
      assert r == Values[r.Id() - 1];
    }
  }

  /** No two ratings share an id. */
  lemma IdsDistinct(a: MpaRating, b: MpaRating)
    ensures a != b ==> a.Id() != b.Id()
  {
  }

  /** Looking a rating up by its own id gives the rating back. */
  lemma FromIdRoundTrip(r: MpaRating)
    ensures FromId(r.Id()) == Success(r)
  {
    TableShape();
    Seqs.FindFirstMember(Values, IdOf, r);
  }
}
