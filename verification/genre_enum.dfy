/** The compiled-in genre table (`Enum/Genre.java`) and its lookup by id. */
module Genres {
  import opened Wrappers
  import opened JavaText
  import Seqs
  import Model

  datatype Genre = Comedy | Drama | Cartoon | Thriller | Documentary | Action
  {
    function Id(): int
    {
      match this
      case Comedy => 1
      case Drama => 2
      case Cartoon => 3
      case Thriller => 4
      case Documentary => 5
      case Action => 6
    }

    function Name(): string
    {
      match this
      case Comedy => "Комедия"
      case Drama => "Драма"
      case Cartoon => "Мультфильм"
      case Thriller => "Триллер"
      case Documentary => "Документальный"
      case Action => "Боевик"
    }
  }

  /** `Genre.values()`, in declaration order. */
  const Values: seq<Genre> := [Comedy, Drama, Cartoon, Thriller, Documentary, Action]

  function IdOf(g: Genre): int
  {
    g.Id()
  }

  /** The message `fromId` throws with. */
  function UnknownIdMessage(id: int): string
  {
    "Неверный id жанра: " + DecimalString(id)
  }

  /** `Genre.fromId`: the genre with that id, or NotFoundException. */
  function FromId(id: int): (r: Result<Genre, Model.Error>)
    ensures r.Success? <==> 1 <= id <= 6
    ensures r.Success? ==> r.value.Id() == id
    ensures r.Failure? ==> r.error == Model.NotFoundException(UnknownIdMessage(id))
  {
    assert 1 <= id <= 6 ==> Values[id - 1] in Values && IdOf(Values[id - 1]) == id;
    match Seqs.FindFirst(Values, IdOf, id)
    case Some(genre) => Success(genre)
    case None => Failure(Model.NotFoundException(UnknownIdMessage(id)))
  }

  /** Six genres with ids 1 to 6, each listed once. */
  lemma TableShape()
    ensures |Values| == 6
    ensures forall i :: 0 <= i < |Values| ==> Values[i].Id() == i + 1
    ensures forall g: Genre :: g in Values
    ensures Seqs.NoDuplicates(Values)
  {
    forall g: Genre ensures g in Values {
      assert g == Values[g.Id() - 1];
    }
  }

  /** No two genres share an id. */
  lemma IdsDistinct(a: Genre, b: Genre)
    ensures a != b ==> a.Id() != b.Id()
  {
  }

  /** Looking a genre up by its own id gives the genre back. */
  lemma FromIdRoundTrip(g: Genre)
    ensures FromId(g.Id()) == Success(g)
  {
    TableShape();
    Seqs.FindFirstMember(Values, IdOf, g);
  }

  /** Ids 1 and 2 are comedy and drama. */
  lemma FirstTwoNames()
    ensures FromId(1).Success? && FromId(1).value.Name() == "Комедия"
    ensures FromId(2).Success? && FromId(2).value.Name() == "Драма"
  {
    FromIdRoundTrip(Comedy);
    FromIdRoundTrip(Drama);
  }
}
