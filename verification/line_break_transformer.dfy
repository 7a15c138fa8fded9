/**
 * The line framer: a stream transformer that keeps the text received so far
 * in a buffer, splits it on CRLF, lone CR or lone LF, enqueues every complete
 * line and keeps the unterminated rest for the next chunk.
 */
module LineBreakTransformer {

  predicate IsBreak(c: char)
  {
    c == '\r' || c == '\n'
  }

  /** The text holds neither CR nor LF. */
  predicate NoBreak(s: string)
  {
    forall i :: 0 <= i < |s| ==> !IsBreak(s[i])
  }

  /** The regular expression `/\r\n|[\n\r]/` matches at the front of `s`: CRLF first, else one CR or LF. */
  predicate StartsWithCrLf(s: string)
  {
    |s| >= 2 && s[0] == '\r' && s[1] == '\n'
  }

  /**
   * `s.split(/\r\n|[\n\r]/)`: the pieces between the terminators, scanning
   * left to right and taking CRLF as one terminator.
   */
  function Split(s: string): (pieces: seq<string>)
    ensures |pieces| >= 1
  {
    if s == [] then [""]
    else if StartsWithCrLf(s) then [""] + Split(s[2..])
    else if IsBreak(s[0]) then [""] + Split(s[1..])
    else var p := Split(s[1..]); [[s[0]] + p[0]] + p[1..]
  }

  /** The terminators that `Split` consumes, in order. */
  function Terminators(s: string): seq<string>
  {
    if s == [] then []
    else if StartsWithCrLf(s) then ["\r\n"] + Terminators(s[2..])
    else if IsBreak(s[0]) then [[s[0]]] + Terminators(s[1..])
    else Terminators(s[1..])
  }

  /** Pieces put back together with the terminators between them. */
  function Rejoin(pieces: seq<string>, terms: seq<string>): string
    requires |pieces| == |terms| + 1
  {
    if terms == [] then pieces[0]
    else pieces[0] + terms[0] + Rejoin(pieces[1..], terms[1..])
  }

  /**
   * One `transform(chunk)` on buffer contents `buffer`: the lines it enqueues
   * (every piece but the last) and the new buffer (the last piece).
   */
  function Feed(buffer: string, chunk: string): (seq<string>, string)
  {
    var p := Split(buffer + chunk);
    (p[..|p| - 1], p[|p| - 1])
  }

  /** What `flush` enqueues: the buffer, when it is not empty. */
  function FlushLines(buffer: string): seq<string>
  {
    if buffer != "" then [buffer] else []
  }

  // ---------------------------------------------------------------------------
  // The transformer object
  // ---------------------------------------------------------------------------

  /** The stream controller that receives the enqueued lines. */
  class Controller {
    var queue: seq<string>

    constructor ()
      ensures queue == []
    {
      queue := [];
    }

    method Enqueue(line: string)
      modifies this
      ensures queue == old(queue) + [line]
    {
      queue := queue + [line];
    }
  }

  class Transformer {
    /** The private `chunks` buffer: received text not yet terminated. */
    var chunks: string

    ghost predicate Valid()
      reads this
    {
      NoBreak(chunks)
    }

    constructor ()
      ensures Valid() && chunks == ""
    {
      chunks := "";
    }

    /** Appends the chunk, enqueues every complete line in order and keeps the rest. */
    method Transform(chunk: string, controller: Controller)
      modifies this, controller
      ensures Valid()
      ensures controller.queue == old(controller.queue) + Feed(old(chunks), chunk).0
      ensures chunks == Feed(old(chunks), chunk).1
    {
      chunks := chunks + chunk;
      var lines := Split(chunks);
      SplitPiecesHaveNoBreak(chunks);
      chunks := lines[|lines| - 1];
      lines := lines[..|lines| - 1];
      ghost var queued := controller.queue;
      for i := 0 to |lines|
        invariant controller.queue == queued + lines[..i]
        invariant chunks == old(Feed(chunks, chunk)).1
      {
        controller.Enqueue(lines[i]);
        assert lines[..i + 1] == lines[..i] + [lines[i]];
      }
      assert lines[..|lines|] == lines;
    }

    /** At the end of the stream, enqueues the buffer if it is not empty. */
    method Flush(controller: Controller)
      modifies controller
      ensures controller.queue == old(controller.queue) + FlushLines(chunks)
      ensures |FlushLines(chunks)| == (if chunks == "" then 0 else 1)
    {
      if chunks != "" {
        controller.Enqueue(chunks);
      }
    }
  }

  // ---------------------------------------------------------------------------
  // Properties of the framing
  // ---------------------------------------------------------------------------

  /** No piece of a split holds a CR or an LF. */
  lemma {:induction false} SplitPiecesHaveNoBreak(s: string)
    ensures forall k :: 0 <= k < |Split(s)| ==> NoBreak(Split(s)[k])
  {
    if s == [] {
    } else if StartsWithCrLf(s) {
      SplitPiecesHaveNoBreak(s[2..]);
    } else if IsBreak(s[0]) {
      SplitPiecesHaveNoBreak(s[1..]);
    } else {
      SplitPiecesHaveNoBreak(s[1..]);
      var p := Split(s[1..]);
      assert NoBreak([s[0]] + p[0]);
      assert Split(s) == [[s[0]] + p[0]] + p[1..];
    }
  }

  /** Text without terminators is one piece. */
  lemma {:induction false} SplitWithoutBreak(s: string)
    requires NoBreak(s)
    ensures Split(s) == [s]
  {
    if s != [] {
      SplitWithoutBreak(s[1..]);
      assert [s[0]] + s[1..] == s;
    }
  }

  /** Prefixing a character to the first piece prefixes it to the rejoined text. */
  lemma RejoinCons(c: char, p: seq<string>, t: seq<string>)
    requires |p| == |t| + 1
    ensures Rejoin([[c] + p[0]] + p[1..], t) == [c] + Rejoin(p, t)
  {
    var q := [[c] + p[0]] + p[1..];
    assert q[0] == [c] + p[0];
    if t == [] {
      assert Rejoin(q, t) == q[0];
    } else {
      assert q[1..] == p[1..];
      var rest := Rejoin(p[1..], t[1..]);
      assert Rejoin(q, t) == ([c] + p[0]) + t[0] + rest;
      Regroup([c], p[0], t[0], rest);
    }
  }

  /** An empty piece in front, then a terminator: the terminator comes first. */
  lemma RejoinFront(term: string, p: seq<string>, t: seq<string>)
    requires |p| == |t| + 1
    ensures Rejoin([""] + p, [term] + t) == term + Rejoin(p, t)
  {
    var q, u := [""] + p, [term] + t;
    assert q[1..] == p && u[1..] == t && q[0] == "" && u[0] == term;
    assert "" + term == term;
  }

  lemma Regroup(a: string, b: string, d: string, e: string)
    ensures (a + b) + d + e == a + (b + d + e)
  {
  }

  /**
   * Splitting loses nothing: the pieces with the matched terminators between
   * them give back the text, and there is one piece more than terminators.
   */
  lemma {:induction false} SplitRejoin(s: string)
    ensures |Split(s)| == |Terminators(s)| + 1
    ensures Rejoin(Split(s), Terminators(s)) == s
  {
    if s == [] {
    } else if StartsWithCrLf(s) {
      SplitRejoin(s[2..]);
      assert Split(s) == [""] + Split(s[2..]);
      assert Terminators(s) == ["\r\n"] + Terminators(s[2..]);
      RejoinFront("\r\n", Split(s[2..]), Terminators(s[2..]));
      assert "\r\n" + s[2..] == s;
    } else if IsBreak(s[0]) {
      SplitRejoin(s[1..]);
      assert Split(s) == [""] + Split(s[1..]);
      assert Terminators(s) == [[s[0]]] + Terminators(s[1..]);
      RejoinFront([s[0]], Split(s[1..]), Terminators(s[1..]));
      assert [s[0]] + s[1..] == s;
    } else {
      SplitRejoin(s[1..]);
      var p, t := Split(s[1..]), Terminators(s[1..]);
      assert Split(s) == [[s[0]] + p[0]] + p[1..];
      assert |Split(s)| == |p|;
      assert Terminators(s) == t;
      RejoinCons(s[0], p, t);
      assert [s[0]] + s[1..] == s;
    }
  }

  /**
   * After a `transform` the buffer holds no terminator, no enqueued line holds
   * one, the lines and their terminators followed by the new buffer are the old
   * buffer plus the chunk, and one line is enqueued per terminator matched.
   */
  lemma FeedFramesLines(buffer: string, chunk: string)
    ensures var (lines, rest) := Feed(buffer, chunk);
      && NoBreak(rest)
      && (forall k :: 0 <= k < |lines| ==> NoBreak(lines[k]))
      && |lines| == |Terminators(buffer + chunk)|
      && Rejoin(lines + [rest], Terminators(buffer + chunk)) == buffer + chunk
  {
    FedPiecesHaveNoBreak(buffer + chunk);
    FedPiecesRejoin(buffer + chunk);
  }

  lemma FedPiecesHaveNoBreak(s: string)
    ensures var p := Split(s);
      NoBreak(p[|p| - 1]) && forall k :: 0 <= k < |p| - 1 ==> NoBreak(p[k])
  {
    SplitPiecesHaveNoBreak(s);
  }

  lemma FedPiecesRejoin(s: string)
    ensures var p := Split(s);
      |p| - 1 == |Terminators(s)| && Rejoin(p[..|p| - 1] + [p[|p| - 1]], Terminators(s)) == s
  {
    SplitRejoin(s);
    var p := Split(s);
    assert p[..|p| - 1] + [p[|p| - 1]] == p;
  }

  /** A chunk without terminators, the empty chunk included, only grows the buffer. */
  lemma FeedWithoutBreak(buffer: string, chunk: string)
    requires NoBreak(buffer) && NoBreak(chunk)
    ensures Feed(buffer, chunk) == ([], buffer + chunk)
  {
    assert NoBreak(buffer + chunk) by {
      forall i | 0 <= i < |buffer + chunk|
        ensures !IsBreak((buffer + chunk)[i])
      {
        if i >= |buffer| {
          assert (buffer + chunk)[i] == chunk[i - |buffer|];
        }
      }
    }
    SplitWithoutBreak(buffer + chunk);
  }

  /** `s` ends with CR and `t` starts with LF: one CRLF would straddle the boundary. */
  predicate Straddles(s: string, t: string)
  {
    |s| > 0 && s[|s| - 1] == '\r' && |t| > 0 && t[0] == '\n'
  }

  /** One unfolding of `Split` on a leading character that is no terminator. */
  lemma SplitCons(c: char, r: string)
    requires !IsBreak(c)
    ensures Split([c] + r) == [[c] + Split(r)[0]] + Split(r)[1..]
  {
    assert ([c] + r)[1..] == r;
  }

  /** One unfolding of `Split` on a lone CR or LF (one not starting a CRLF). */
  lemma SplitBreak(c: char, r: string)
    requires IsBreak(c) && !(c == '\r' && |r| > 0 && r[0] == '\n')
    ensures Split([c] + r) == [""] + Split(r)
  {
    assert ([c] + r)[1..] == r;
  }

  /** One unfolding of `Split` on a CRLF. */
  lemma SplitCrLf(r: string)
    ensures Split("\r\n" + r) == [""] + Split(r)
  {
    assert ("\r\n" + r)[2..] == r;
  }

  /** The glued shape of a split concatenation, with the pieces `p` of the first part and `q` of the second. */
  function Glue(p: seq<string>, q: seq<string>): seq<string>
    requires |p| >= 1 && |q| >= 1
  {
    p[..|p| - 1] + [p[|p| - 1] + q[0]] + q[1..]
  }

  /** Putting a piece in front commutes with gluing. */
  lemma GlueFront(h: string, p: seq<string>, q: seq<string>)
    requires |p| >= 1 && |q| >= 1
    ensures [h] + Glue(p, q) == Glue([h] + p, q)
  {
    assert ([h] + p)[..|p|] == [h] + p[..|p| - 1];
  }

  /** Prefixing a character to the first piece commutes with gluing. */
  lemma GlueCons(c: char, p: seq<string>, q: seq<string>)
    requires |p| >= 1 && |q| >= 1
    ensures var g := Glue(p, q);
      [[c] + g[0]] + g[1..] == Glue([[c] + p[0]] + p[1..], q)
  {
    var g := Glue(p, q);
    var p' := [[c] + p[0]] + p[1..];
    if |p| == 1 {
      assert g[0] == p[0] + q[0] && g[1..] == q[1..];
      assert [c] + p[0] + q[0] == [c] + (p[0] + q[0]);
    } else {
      assert g[0] == p[0];
      assert g[1..] == p[1..|p| - 1] + [p[|p| - 1] + q[0]] + q[1..];
      assert p'[..|p'| - 1] == [[c] + p[0]] + p[1..|p| - 1];
    }
  }

  /**
   * Splitting a concatenation splits each part and glues the last piece of the
   * first onto the first piece of the second, unless a CRLF straddles the seam.
   */
  lemma {:induction false} SplitConcat(s: string, t: string)
    requires !Straddles(s, t)
    ensures Split(s + t) == Glue(Split(s), Split(t))
  {
    if s == [] {
      assert s + t == t;
      var pt := Split(t);
      assert [""][..0] == [] && "" + pt[0] == pt[0];
      assert Glue([""], pt) == [pt[0]] + pt[1..];
    } else if StartsWithCrLf(s) {
      var r := s[2..];
      assert s == "\r\n" + r && s + t == "\r\n" + (r + t);
      assert !Straddles(r, t) by {
        if |r| > 0 { assert r[|r| - 1] == s[|s| - 1]; }
      }
      SplitConcat(r, t);
      SplitCrLf(r);
      SplitCrLf(r + t);
      GlueFront("", Split(r), Split(t));
    } else if IsBreak(s[0]) {
      var r := s[1..];
      assert s == [s[0]] + r && s + t == [s[0]] + (r + t);
      assert !Straddles(r, t) by {
        if |r| > 0 { assert r[|r| - 1] == s[|s| - 1]; }
      }
      assert !(s[0] == '\r' && |r + t| > 0 && (r + t)[0] == '\n') by {
        if |r| > 0 { assert (r + t)[0] == r[0]; }
      }
      SplitConcat(r, t);
      SplitBreak(s[0], r);
      SplitBreak(s[0], r + t);
      GlueFront("", Split(r), Split(t));
    } else {
      var r := s[1..];
      assert s == [s[0]] + r && s + t == [s[0]] + (r + t);
      assert !Straddles(r, t) by {
        if |r| > 0 { assert r[|r| - 1] == s[|s| - 1]; }
      }
      SplitConcat(r, t);
      SplitCons(s[0], r);
      SplitCons(s[0], r + t);
      GlueCons(s[0], Split(r), Split(t));
    }
  }

  /**
   * Chunking invariance: two `transform` calls enqueue the same lines and leave
   * the same buffer as one call on the joined chunk, provided no CRLF straddles
   * the chunk boundary (the first chunk, after the buffer, ending in CR while
   * the second starts with LF).
   */
  lemma FeedTwiceIsFeedOnce(buffer: string, c1: string, c2: string)
    requires NoBreak(buffer)
    requires !Straddles(buffer + c1, c2)
    ensures Feed(buffer, c1).0 + Feed(Feed(buffer, c1).1, c2).0 == Feed(buffer, c1 + c2).0
    ensures Feed(Feed(buffer, c1).1, c2).1 == Feed(buffer, c1 + c2).1
  {
    var s := buffer + c1;
    assert buffer + (c1 + c2) == s + c2;
    var ps, pt := Split(s), Split(c2);
    var r1 := ps[|ps| - 1];
    assert Feed(buffer, c1) == (ps[..|ps| - 1], r1);
    LastPieceHasNoBreak(s);
    SplitWithoutBreak(r1);
    assert !Straddles(r1, c2) by {
      if |r1| > 0 { assert !IsBreak(r1[|r1| - 1]); }
    }
    SplitConcat(r1, c2);
    var second := Glue([r1], pt);
    assert Split(r1 + c2) == second;
    SplitConcat(s, c2);
    GlueSplitsAtLast(ps, pt);
    assert Split(s + c2) == ps[..|ps| - 1] + second;
    LastOfAppend(ps[..|ps| - 1], second);
  }

  /** The last piece of a split, which becomes the buffer, holds no terminator. */
  lemma LastPieceHasNoBreak(s: string)
    ensures NoBreak(Split(s)[|Split(s)| - 1])
  {
    SplitPiecesHaveNoBreak(s);
  }

  /** A glued sequence is the first part's complete pieces followed by its last piece glued to the second. */
  lemma GlueSplitsAtLast(p: seq<string>, q: seq<string>)
    requires |p| >= 1 && |q| >= 1
    ensures Glue(p, q) == p[..|p| - 1] + Glue([p[|p| - 1]], q)
  {
    assert [p[|p| - 1]][..0] == [];
  }

  /** Dropping the last element of `a + b` with `b` non-empty drops the last element of `b`. */
  lemma LastOfAppend(a: seq<string>, b: seq<string>)
    requires |b| >= 1
    ensures (a + b)[..|a + b| - 1] == a + b[..|b| - 1]
    ensures (a + b)[|a + b| - 1] == b[|b| - 1]
  {
  }

  /** The boundary case: "a\r" then "\nb" enqueues "a" and an extra empty line ... */
  lemma StraddlingCrLfAddsEmptyLine()
    ensures Feed("", "a\r") == (["a"], "")
    ensures Feed("", "\nb") == ([""], "b")
    ensures Feed("", "a\r\nb") == (["a"], "b")
  {
    SplitOfCrEnding();
    SplitOfLfStart();
    SplitOfCrLfInside();
    assert "" + "a\r" == "a\r" && "" + "\nb" == "\nb" && "" + "a\r\nb" == "a\r\nb";
    assert ["a", ""][..1] == ["a"] && ["", "b"][..1] == [""] && ["a", "b"][..1] == ["a"];
  }

  lemma SplitOfCrEnding()
    ensures Split("a\r") == ["a", ""]
  {
    SplitBreak('\r', "");
    assert ['\r'] + "" == "\r";
    SplitCons('a', "\r");
    assert ['a'] + "\r" == "a\r" && ['a'] + "" == "a";
  }

  lemma SplitOfLfStart()
    ensures Split("\nb") == ["", "b"]
  {
    SplitWithoutBreak("b");
    SplitBreak('\n', "b");
    assert ['\n'] + "b" == "\nb";
  }

  lemma SplitOfCrLfInside()
    ensures Split("a\r\nb") == ["a", "b"]
  {
    SplitWithoutBreak("b");
    SplitCrLf("b");
    assert "\r\n" + "b" == "\r\nb";
    SplitCons('a', "\r\nb");
    assert ['a'] + "\r\nb" == "a\r\nb" && ['a'] + "" == "a";
  }
}
