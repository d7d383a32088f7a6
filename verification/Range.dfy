/** Accepted byte ranges (httpreq_fio_build_hdr in http_fio.h), in 64-bit unsigned arithmetic. */
module Range {

  const U64: nat := 0x1_0000_0000_0000_0000

  type Word = w: nat | w < U64

  function Wrap(x: int): Word { x % U64 }

  /** The Range header field as sscanf leaves it. */
  datatype Wanted = NoRange | Unreadable | From(first: Word) | FromTo(first: Word, last: Word)

  datatype Reply = Reply(code: nat, rfirst: Word, rlast: Word, rlen: Word)

  /** Response code, first and last byte, and length of the body; 416 has no body. */
  function Build(fsize: Word, w: Wanted): Reply {
    var end := Wrap(fsize - 1);
    match w
    case NoRange => Accept(200, 0, end)
    case Unreadable => Reply(416, 0, end, 0)
    case From(a) => if a < end then Accept(206, a, end) else Reply(416, 0, end, 0)
    case FromTo(a, b) => if a < b && a < end && b <= end then Accept(206, a, b) else Reply(416, 0, end, 0)
  }

  function Accept(code: nat, a: Word, b: Word): Reply {
    Reply(code, a, b, Wrap(Wrap(b + 1) - a))
  }

  /** The bytes a request is for, by section 14.35.1 of RFC 2616: none when it is malformed or starts
      behind the end; a last byte behind the end is cut to the file. */
  predicate Asked(fsize: nat, w: Wanted, i: nat) {
    i < fsize &&
    match w
    case NoRange => true
    case Unreadable => false
    case From(a) => a <= i
    case FromTo(a, b) => a <= i <= b
  }

  /** On a file that is not empty, an answered request delivers exactly the bytes asked for, and the
      length is their number. */
  lemma AnswersAsked(fsize: Word, w: Wanted)
    requires fsize > 0 && Build(fsize, w).code != 416
    ensures var r := Build(fsize, w);
      && r.rfirst <= r.rlast < fsize && r.rlen == r.rlast - r.rfirst + 1
      && forall i: nat :: Asked(fsize, w, i) <==> r.rfirst <= i <= r.rlast
  {
  }

  /** The code tells the kind of the answer: 200 exactly for requests without a range, 416 for refused
      ones, which have no body, and 206 for all others. */
  lemma CodeExactly(fsize: Word, w: Wanted)
    ensures var r := Build(fsize, w);
      && (r.code == 200 <==> w.NoRange?) && r.code in {200, 206, 416}
      && (r.code == 206 ==> w.From? || w.FromTo?) && (r.code == 416 ==> r.rlen == 0)
  {
  }

  /** A range is refused exactly when it names fewer than two bytes of the file or a last byte behind
      its end: the code refuses more than the RFC does. */
  lemma RefusedExactly(fsize: Word, w: Wanted)
    requires fsize > 0
    ensures Build(fsize, w).code == 416 <==>
      match w
      case NoRange => false
      case Unreadable => true
      case From(a) => fsize <= a + 1
      case FromTo(a, b) => b <= a || fsize <= b
  {
  }

  /** A one-byte range of a one-byte file is satisfiable and refused. */
  lemma OneByteRefused()
    ensures Asked(1, FromTo(0, 0), 0) && Build(1, FromTo(0, 0)).code == 416
  {
  }

  /** An accepted range lies inside the file for every request exactly when the file is not empty. */
  lemma InsideIffNotEmpty(fsize: Word)
    ensures (forall w :: Build(fsize, w).code == 206 ==> Build(fsize, w).rlast < fsize) <==> fsize > 0
  {
    if fsize == 0 {
      var r := Build(fsize, FromTo(0, 5));
      assert r.code == 206 && r.rlast == 5 && r.rlen == 6;
    } else {
      forall w | Build(fsize, w).code == 206 ensures Build(fsize, w).rlast < fsize { AnswersAsked(fsize, w); }
    }
  }
}
