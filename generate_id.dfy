/**
 * `generateUniqueUserId(length, isDentist)`: draw a number with `length`
 * decimal digits, and draw again for as long as the drawn number is already an
 * id in the selected collection. The source has no bound on the number of
 * draws; here the draws are given as a finite sequence, and running out of
 * them (None) stands for a run that has not yet found a free id.
 */
module GenerateId {
  import opened Wrappers
  import opened Accounts
  import opened Store
  import opened FindUser
  import Js

  /** One value of `Math.random()`. */
  type Draw = r: real | 0.0 <= r < 1.0

  type Positive = n: nat | n >= 1 witness 1

  function Pow10(n: nat): Positive {
    if n == 0 then 1 else 10 * Pow10(n - 1)
  }

  /** `Math.floor(r * (10^length - 10^(length-1))) + 10^(length-1)`: a number of exactly `length` digits. */
  function Candidate(length: nat, r: Draw): (id: nat)
    requires length >= 1
    ensures Pow10(length - 1) <= id < Pow10(length)
  {
    var low := Pow10(length - 1);
    var width := Pow10(length) - low;
    assert width == 9 * low;
    var f := ScaledDrawFloor(r, width);
    f + low
  }

  /** A number between 10^(length-1) and 10^length, as `toString()` writes it, has exactly `length` digits. */
  lemma {:induction false} DecimalLength(n: nat, length: nat)
    requires length >= 1 && Pow10(length - 1) <= n < Pow10(length)
    ensures |Js.NumberToString(n)| == length
  {
    if length > 1 {
      var low := Pow10(length - 2);
      assert 10 * low <= n < 10 * Pow10(length - 1);
      assert low <= n / 10 < Pow10(length - 1);
      DecimalLength(n / 10, length - 1);
    }
  }

  /** Every candidate has exactly `length` decimal digits. */
  lemma CandidateLength(length: nat, r: Draw)
    requires length >= 1
    ensures |Js.NumberToString(Candidate(length, r))| == length
  {
    DecimalLength(Candidate(length, r), length);
  }

  /** Scaling a draw by a positive width stays below the width. */
  lemma ScaledDraw(r: Draw, w: real)
    requires w > 0.0
    ensures 0.0 <= r * w < w
  {
    assert w - r * w == (1.0 - r) * w;
    assert (1.0 - r) * w > 0.0;
  }

  /** `Math.floor(r * width)` is one of 0 .. width - 1. */
  function ScaledDrawFloor(r: Draw, width: nat): (f: nat)
    requires width > 0
    ensures f < width
  {
    var x := r * width as real;
    ScaledDraw(r, width as real);
    assert x.Floor as real <= x;
    assert 0 <= x.Floor by {
      assert 0.0.Floor <= x.Floor;
    }
    x.Floor
  }

  /** The kind of collection the id must be fresh in: Dentist (by `dentistId`) or User (by `userId`). */
  function IdKind(isDentist: bool): (kind: Kind)
    ensures kind == DentistKind <==> isDentist
  {
    if isDentist then DentistKind else UserKind
  }

  predicate Taken(coll: seq<Account>, id: nat) {
    FindOne(coll, ById(id)).Some?
  }

  function GenerateUniqueUserId(length: nat, isDentist: bool, users: seq<Account>, dentists: seq<Account>,
                                draws: seq<Draw>): (r: Option<nat>)
    requires length >= 1
    ensures r.Some? ==> Pow10(length - 1) <= r.value < Pow10(length)
    ensures r.Some? ==> forall a :: a in Select(users, dentists, IdKind(isDentist)) ==> a.id != r.value
    ensures r.Some? ==> exists i :: (0 <= i < |draws| && r.value == Candidate(length, draws[i])
      && forall j :: 0 <= j < i ==> Taken(Select(users, dentists, IdKind(isDentist)), Candidate(length, draws[j])))
    ensures r.None? <==>
      forall i :: 0 <= i < |draws| ==> Taken(Select(users, dentists, IdKind(isDentist)), Candidate(length, draws[i]))
    decreases |draws|
  {
    if draws == [] then None
    else
      var id := Candidate(length, draws[0]);
      if Taken(Select(users, dentists, IdKind(isDentist)), id) then
        var r := GenerateUniqueUserId(length, isDentist, users, dentists, draws[1..]);
        assert r.Some? ==> exists i :: (1 <= i < |draws| && r.value == Candidate(length, draws[i])
          && forall j :: 0 <= j < i ==> Taken(Select(users, dentists, IdKind(isDentist)), Candidate(length, draws[j]))) by {
          if r.Some? {
            var i :| 0 <= i < |draws[1..]| && r.value == Candidate(length, draws[1..][i])
              && forall j :: 0 <= j < i ==> Taken(Select(users, dentists, IdKind(isDentist)), Candidate(length, draws[1..][j]));
            assert forall j :: 0 <= j < i + 1 ==> Taken(Select(users, dentists, IdKind(isDentist)), Candidate(length, draws[j])) by {
              forall j | 0 <= j < i + 1
                ensures Taken(Select(users, dentists, IdKind(isDentist)), Candidate(length, draws[j]))
              {
                if j > 0 { assert draws[j] == draws[1..][j - 1]; }
              }
            }
          }
        }
        r
      else
        Some(id)
  }
}
