/**
 * The emitters' output as a list of lines. A template line is its
 * indentation, whether it starts with the '}' that closes a block, its code,
 * whether it ends with the '{' that opens one, and what trails it (padding,
 * or the padded backslash of a macro continuation). A `Fragment` is text an
 * emitter leaves without a line break, possibly starting with a '}'.
 *
 * `Walk` follows the nesting depth through a list and fails when a line
 * closes a block that was never opened; `} else {` closes one and opens one.
 *
 * "Balanced" is therefore a statement about these opening and closing
 * marks, not about the characters emitted: a '{' or '}' inside a line's code
 * (`sInited {}`) or inside text handed in from outside (a namespace's start
 * text, a notice) is not counted.
 */
module Lines {
  import opened Wrappers
  import opened Text

  datatype Piece =
    | Line(indent: nat, closing: bool, body: string, opening: bool, tail: string)
    | Fragment(closing: bool, text: string)

  /** A template line that neither opens nor closes a block. */
  function L(indent: nat, body: string): Piece
  {
    Line(indent, false, body, false, "")
  }

  /** A template line that ends with '{'. */
  function O(indent: nat, body: string): Piece
  {
    Line(indent, false, body, true, "")
  }

  /** A template line that starts with '}'. */
  function C(indent: nat, rest: string): Piece
  {
    Line(indent, true, rest, false, "")
  }

  /** A template line `}` + `mid` + `{`, such as `} else {`. */
  function CO(indent: nat, mid: string): Piece
  {
    Line(indent, true, mid, true, "")
  }

  const Blank: Piece := L(0, "")

  function PieceText(p: Piece): (r: string)
    ensures p.Line? ==> |r| > 0 && r[|r| - 1] == '\n'
  {
    match p
    case Line(n, c, b, o, t) =>
      Repeat(' ', n) + (if c then "}" else "") + b + (if o then "{" else "") + t + "\n"
    case Fragment(c, t) => (if c then "}" else "") + t
  }

  /** A closing line's '}' follows its indentation; an opening line's '{' comes just before its tail. */
  lemma BracesInText(p: Piece)
    requires p.Line?
    ensures var r := PieceText(p);
      |r| == p.indent + (if p.closing then 1 else 0) + |p.body| + (if p.opening then 1 else 0) + |p.tail| + 1
      && (p.closing ==> r[p.indent] == '}')
      && (p.opening ==> r[|r| - |p.tail| - 2] == '{')
  {
  }

  /** The text of a list of lines. */
  function Render(ps: seq<Piece>): (r: string)
  {
    if |ps| == 0 then "" else PieceText(ps[0]) + Render(ps[1..])
  }

  lemma {:induction false} RenderAppend(a: seq<Piece>, b: seq<Piece>)
    ensures Render(a + b) == Render(a) + Render(b)
  {
    if |a| == 0 {
      assert a + b == b;
    } else {
      assert (a + b)[1..] == a[1..] + b;
      RenderAppend(a[1..], b);
    }
  }

  predicate Opens(p: Piece)
  {
    p.Line? && p.opening
  }

  predicate Closes(p: Piece)
  {
    p.closing
  }

  /** The nesting depth after one line, or `None` when it closes a block at depth zero. */
  function Step(p: Piece, d: nat): (r: Option<nat>)
    ensures r.Some? <==> !Closes(p) || d > 0
    ensures r.Some? ==> r.value == d - (if Closes(p) then 1 else 0) + (if Opens(p) then 1 else 0)
  {
    if Closes(p) && d == 0 then None
    else Some(d - (if Closes(p) then 1 else 0) + (if Opens(p) then 1 else 0))
  }

  /** The nesting depth after a list of lines that starts at depth `d`. */
  function Walk(ps: seq<Piece>, d: nat): (r: Option<nat>)
  {
    if |ps| == 0 then Some(d)
    else
      match Step(ps[0], d)
      case None => None
      case Some(d1) => Walk(ps[1..], d1)
  }

  /** Walking two lists in a row is walking the first and then the second from where it left off. */
  lemma {:induction false} WalkAppend(a: seq<Piece>, b: seq<Piece>, d: nat)
    ensures Walk(a + b, d) == (if Walk(a, d).Some? then Walk(b, Walk(a, d).value) else None)
  {
    if |a| == 0 {
      assert a + b == b;
    } else {
      assert (a + b)[0] == a[0];
      assert (a + b)[1..] == a[1..] + b;
      match Step(a[0], d)
      case None =>
      case Some(d1) => WalkAppend(a[1..], b, d1);
    }
  }

  /** Starting deeper only shifts the walk. */
  lemma {:induction false} WalkShift(ps: seq<Piece>, d: nat, k: nat)
    requires Walk(ps, d).Some?
    ensures Walk(ps, d + k) == Some(Walk(ps, d).value + k)
  {
    if |ps| > 0 {
      WalkShift(ps[1..], Step(ps[0], d).value, k);
    }
  }

  /** Lines that neither open nor close a block. */
  predicate Flat(ps: seq<Piece>)
  {
    forall i | 0 <= i < |ps| :: !Opens(ps[i]) && !Closes(ps[i])
  }

  lemma {:induction false} WalkFlat(ps: seq<Piece>, d: nat)
    requires Flat(ps)
    ensures Walk(ps, d) == Some(d)
  {
    if |ps| > 0 {
      WalkFlat(ps[1..], d);
    }
  }

  /**
   * `ds` records the depth before each line and after the last one, and
   * each line moves the depth from one entry to the next.
   */
  predicate IsTrace(ps: seq<Piece>, ds: seq<nat>)
  {
    |ds| == |ps| + 1 && forall i | 0 <= i < |ps| :: Step(ps[i], ds[i]) == Some(ds[i + 1])
  }

  lemma {:induction false} WalkTrace(ps: seq<Piece>, ds: seq<nat>)
    requires IsTrace(ps, ds)
    ensures Walk(ps, ds[0]) == Some(ds[|ps|])
  {
    if |ps| > 0 {
      assert IsTrace(ps[1..], ds[1..]) by {
        forall i | 0 <= i < |ps| - 1
          ensures Step(ps[1..][i], ds[1..][i]) == Some(ds[1..][i + 1])
        {
          assert Step(ps[i + 1], ds[i + 1]) == Some(ds[i + 2]);
        }
      }
      WalkTrace(ps[1..], ds[1..]);
    }
  }

  /** A list that closes every block it opens and never closes one it did not open. */
  predicate Balanced(ps: seq<Piece>)
  {
    Walk(ps, 0) == Some(0)
  }

  lemma BalancedAppend(a: seq<Piece>, b: seq<Piece>)
    requires Balanced(a) && Balanced(b)
    ensures Balanced(a + b)
  {
    WalkAppend(a, b, 0);
  }

  /** The lines of several blocks, one block after another. */
  function Flatten(bs: seq<seq<Piece>>): (r: seq<Piece>)
  {
    if |bs| == 0 then [] else bs[0] + Flatten(bs[1..])
  }

  /** Blocks of `n` lines each: block `k` is lines `n * k` up to `n * k + n` of the whole. */
  lemma {:induction false} FlattenUniform(bs: seq<seq<Piece>>, n: nat, k: nat)
    requires forall i | 0 <= i < |bs| :: |bs[i]| == n
    requires k < |bs|
    ensures |Flatten(bs)| == n * |bs|
    ensures n * k + n <= |Flatten(bs)| && Flatten(bs)[n * k..n * k + n] == bs[k]
  {
    FlattenLength(bs, n);
    var rest := Flatten(bs[1..]);
    assert Flatten(bs) == bs[0] + rest;
    if k == 0 {
      assert (bs[0] + rest)[0..n] == bs[0];
    } else {
      FlattenUniform(bs[1..], n, k - 1);
      MulStep(n, k);
      assert (bs[0] + rest)[n * k..n * k + n] == rest[n * (k - 1)..n * (k - 1) + n];
    }
  }

  lemma {:induction false} FlattenLength(bs: seq<seq<Piece>>, n: nat)
    requires forall i | 0 <= i < |bs| :: |bs[i]| == n
    ensures |Flatten(bs)| == n * |bs|
  {
    if |bs| > 0 {
      FlattenLength(bs[1..], n);
      MulStep(n, |bs|);
    }
  }

  lemma MulStep(n: nat, k: nat)
    requires k > 0
    ensures n * k == n + n * (k - 1)
  {
  }

  /** Blocks that each return to the depth they start at leave the whole at that depth. */
  lemma {:induction false} FlattenWalk(bs: seq<seq<Piece>>, d: nat)
    requires forall i | 0 <= i < |bs| :: Walk(bs[i], d) == Some(d)
    ensures Walk(Flatten(bs), d) == Some(d)
  {
    if |bs| > 0 {
      FlattenWalk(bs[1..], d);
      WalkAppend(bs[0], Flatten(bs[1..]), d);
    }
  }

  /** A balanced list after a prefix leaves the depth where the prefix left it. */
  lemma BalancedAfter(head: seq<Piece>, body: seq<Piece>, d: nat)
    requires Walk(head, 0) == Some(d) && Balanced(body)
    ensures Walk(head + body, 0) == Some(d)
  {
    WalkAppend(head, body, 0);
    WalkShift(body, 0, d);
  }

  /** The lines of `body` sit `|head|` further on in `head + body`. */
  lemma SliceAfter(head: seq<Piece>, body: seq<Piece>, i: nat, j: nat)
    requires i <= j <= |body|
    ensures (head + body)[|head| + i..|head| + j] == body[i..j]
  {
  }
}
