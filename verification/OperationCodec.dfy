/**
  server/session/Session.java: operations are built from an operator and arguments with delimiter characters,
  and a message is taken apart by Java's String.split.
 */
module OperationCodec {
  const RECORD_DELIMITER: char := '\U{1E}'
  const OPERATION_DELIMITER: char := '\U{1D}'

  /** The stretches between delimiters; there is always at least one. */
  function Pieces(s: string, d: char): (r: seq<string>)
    ensures |r| >= 1
  {
    if s == "" then [""]
    else
      var r := Pieces(s[1..], d);
      if s[0] == d then [""] + r else [[s[0]] + r[0]] + r[1..]
  }

  function DropTrailingEmpty(pieces: seq<string>): seq<string> {
    if pieces == [] || pieces[|pieces| - 1] != "" then pieces else DropTrailingEmpty(pieces[..|pieces| - 1])
  }

  /** What is dropped is empty, and what is kept, if anything, does not end empty. */
  lemma {:induction false} DroppedExactly(pieces: seq<string>) returns (k: nat)
    ensures k <= |pieces| && DropTrailingEmpty(pieces) == pieces[..k]
    ensures (forall i :: k <= i < |pieces| ==> pieces[i] == "") && (k > 0 ==> pieces[k - 1] != "")
  {
    if pieces == [] || pieces[|pieces| - 1] != "" {
      k := |pieces|;
      assert pieces[..k] == pieces;
    } else {
      k := DroppedExactly(pieces[..|pieces| - 1]);
      assert pieces[..|pieces| - 1][..k] == pieces[..k];
    }
  }

  /** String.split: a string without the delimiter comes back whole, otherwise empty strings at the end are dropped. */
  function Split(s: string, d: char): seq<string> {
    if d !in s then [s] else DropTrailingEmpty(Pieces(s, d))
  }

  function Terminated(fields: seq<string>, d: char): string {
    if fields == [] then "" else fields[0] + [d] + Terminated(fields[1..], d)
  }

  datatype Operation = Operation(op: string, args: seq<string>) {
    function Fields(): (r: seq<string>)
      ensures |r| == |args| + 1
    {
      [op] + args
    }
  }

  function Built(o: Operation): string {
    Terminated(o.Fields(), RECORD_DELIMITER) + [OPERATION_DELIMITER]
  }

  function Message(ops: seq<Operation>): string {
    if ops == [] then "" else Built(ops[0]) + Message(ops[1..])
  }

  /** The record arrays that putOperation gets to see for a message. */
  function Records(message: string): (r: seq<seq<string>>) {
    AllSplit(Split(message, OPERATION_DELIMITER))
  }

  function AllSplit(operations: seq<string>): (r: seq<seq<string>>)
    ensures |r| == |operations|
  {
    seq(|operations|, i requires 0 <= i < |operations| => Split(operations[i], RECORD_DELIMITER))
  }

  ghost predicate AllFree(fields: seq<string>, d: char) {
    forall i :: 0 <= i < |fields| ==> d !in fields[i]
  }

  ghost predicate DelimiterFree(o: Operation) {
    AllFree(o.Fields(), RECORD_DELIMITER) && AllFree(o.Fields(), OPERATION_DELIMITER)
  }

  // ---- Splitting what was terminated ----

  lemma {:induction false} PiecesFirst(f: string, d: char, rest: string)
    requires d !in f
    ensures Pieces(f + [d] + rest, d) == [f] + Pieces(rest, d)
  {
    var s := f + [d] + rest;
    if f == "" {
      assert s[1..] == rest;
    } else {
      assert s[1..] == f[1..] + [d] + rest;
      PiecesFirst(f[1..], d, rest);
      assert [s[0]] + f[1..] == f;
    }
  }

  lemma {:induction false} PiecesTerminated(fields: seq<string>, d: char)
    requires AllFree(fields, d)
    ensures Pieces(Terminated(fields, d), d) == fields + [""]
  {
    if fields == [] {
    } else {
      PiecesFirst(fields[0], d, Terminated(fields[1..], d));
      PiecesTerminated(fields[1..], d);
    }
  }

  lemma TerminatedSplits(fields: seq<string>, d: char)
    requires AllFree(fields, d) && fields != []
    ensures Split(Terminated(fields, d), d) == DropTrailingEmpty(fields)
  {
    PiecesTerminated(fields, d);
    assert Terminated(fields, d)[|fields[0]|] == d;
    assert (fields + [""])[..|fields|] == fields;
  }

  lemma {:induction false} TerminatedKeepsFree(fields: seq<string>, d: char, other: char)
    requires AllFree(fields, other) && d != other
    ensures other !in Terminated(fields, d)
  {
    if fields == [] {
    } else {
      TerminatedKeepsFree(fields[1..], d, other);
    }
  }

  function Bodies(ops: seq<Operation>): (r: seq<string>)
    ensures |r| == |ops|
  {
    seq(|ops|, i requires 0 <= i < |ops| => Terminated(ops[i].Fields(), RECORD_DELIMITER))
  }

  lemma {:induction false} MessageTerminates(ops: seq<Operation>)
    ensures Message(ops) == Terminated(Bodies(ops), OPERATION_DELIMITER)
  {
    if ops == [] {
    } else {
      MessageTerminates(ops[1..]);
      assert Bodies(ops)[1..] == Bodies(ops[1..]);
    }
  }

  /**
    For any number of operations in a message, taking the message apart gives the fields of each operation, in
    order, without the empty ones at its end.
   */
  lemma MessageRoundTrip(ops: seq<Operation>)
    requires ops != [] && forall i :: 0 <= i < |ops| ==> DelimiterFree(ops[i])
    ensures |Records(Message(ops))| == |ops|
    ensures forall i :: 0 <= i < |ops| ==> Records(Message(ops))[i] == DropTrailingEmpty(ops[i].Fields())
  {
    var bodies := Bodies(ops);
    MessageTerminates(ops);
    forall i | 0 <= i < |ops|
      ensures OPERATION_DELIMITER !in bodies[i] && bodies[i] != ""
      ensures Split(bodies[i], RECORD_DELIMITER) == DropTrailingEmpty(ops[i].Fields())
    {
      assert DelimiterFree(ops[i]);
      TerminatedKeepsFree(ops[i].Fields(), RECORD_DELIMITER, OPERATION_DELIMITER);
      TerminatedSplits(ops[i].Fields(), RECORD_DELIMITER);
    }
    TerminatedSplits(bodies, OPERATION_DELIMITER);
    assert DropTrailingEmpty(bodies) == bodies;
  }

  // ---- When nothing is lost ----

  lemma {:induction false} PiecesAreFree(s: string, d: char)
    ensures AllFree(Pieces(s, d), d)
  {
    if s == "" {
    } else {
      PiecesAreFree(s[1..], d);
    }
  }

  lemma {:induction false} PiecesWithin(s: string, d: char, c: char)
    requires c !in s
    ensures AllFree(Pieces(s, d), c)
  {
    if s == "" {
    } else {
      PiecesWithin(s[1..], d, c);
    }
  }

  lemma {:induction false} DropIsPrefix(pieces: seq<string>)
    ensures DropTrailingEmpty(pieces) <= pieces
    ensures DropTrailingEmpty(pieces) == [] || DropTrailingEmpty(pieces)[|DropTrailingEmpty(pieces)| - 1] != ""
    ensures DropTrailingEmpty(pieces) == pieces <==> pieces == [] || pieces[|pieces| - 1] != ""
  {
    if pieces == [] || pieces[|pieces| - 1] != "" {
    } else {
      DropIsPrefix(pieces[..|pieces| - 1]);
    }
  }

  lemma SplitIsFree(s: string, d: char, c: char)
    ensures AllFree(Split(s, d), d)
    ensures c !in s ==> AllFree(Split(s, d), c)
  {
    PiecesAreFree(s, d);
    DropIsPrefix(Pieces(s, d));
    if c !in s {
      PiecesWithin(s, d, c);
    }
  }

  /**
    An operation comes back exactly as it was built if and only if no field contains a delimiter and its last
    field is not empty.
   */
  lemma SurvivesExactly(o: Operation)
    ensures Records(Built(o)) == [o.Fields()] <==> DelimiterFree(o) && o.Fields()[|o.args|] != ""
  {
    assert Message([o]) == Built(o) by {
      assert [o][1..] == [] && Built(o) + "" == Built(o);
    }
    DropIsPrefix(o.Fields());
    if DelimiterFree(o) {
      MessageRoundTrip([o]);
      assert Records(Built(o)) == [DropTrailingEmpty(o.Fields())];
    }
    if Records(Built(o)) == [o.Fields()] {
      var body := Split(Built(o), OPERATION_DELIMITER)[0];
      SplitIsFree(Built(o), OPERATION_DELIMITER, OPERATION_DELIMITER);
      SplitIsFree(body, RECORD_DELIMITER, OPERATION_DELIMITER);
      assert Records(Built(o))[0] == Split(body, RECORD_DELIMITER);
    }
  }

  // ---- The methods ----

  /** Session.buildOperation */
  method BuildOperation(op: string, args: seq<string>) returns (sb: string)
    ensures sb == Built(Operation(op, args))
  {
    sb := op + [RECORD_DELIMITER];
    ghost var all := Operation(op, args).Fields();
    assert all[1..] == args;
    for i := 0 to |args|
      invariant sb + Terminated(args[i..], RECORD_DELIMITER) == Terminated(all, RECORD_DELIMITER)
    {
      assert args[i..][0] == args[i] && args[i..][1..] == args[i + 1..];
      assert sb + (args[i] + [RECORD_DELIMITER] + Terminated(args[i + 1..], RECORD_DELIMITER))
          == sb + args[i] + [RECORD_DELIMITER] + Terminated(args[i + 1..], RECORD_DELIMITER);
      sb := sb + args[i];
      sb := sb + [RECORD_DELIMITER];
    }
    sb := sb + [OPERATION_DELIMITER];
  }

  /** Session.putInputMessage: the record arrays handed on, those without records left out. */
  method PutInputMessage(message: string) returns (handled: seq<seq<string>>)
    ensures handled == NonEmpty(Records(message))
  {
    var operations := Split(message, OPERATION_DELIMITER);
    handled := [];
    for i := 0 to |operations|
      invariant handled == NonEmpty(AllSplit(operations[..i]))
    {
      var records := Split(operations[i], RECORD_DELIMITER);
      assert AllSplit(operations[..i + 1]) == AllSplit(operations[..i]) + [records];
      if |records| != 0 {
        handled := handled + [records];
      }
    }
    assert operations[..|operations|] == operations;
  }

  function NonEmpty(all: seq<seq<string>>): seq<seq<string>> {
    if all == [] then [] else NonEmpty(all[..|all| - 1]) + (if all[|all| - 1] == [] then [] else [all[|all| - 1]])
  }

  /** Records are handed on in order, all but the empty ones. */
  lemma {:induction false} NonEmptyJoin(a: seq<seq<string>>, b: seq<seq<string>>)
    ensures NonEmpty(a + b) == NonEmpty(a) + NonEmpty(b)
  {
    hide NonEmpty;
    if b == [] {
      assert a + b == a;
      NoneNonEmpty();
    } else {
      var front, last := b[..|b| - 1], b[|b| - 1];
      assert a + front + [last] == a + b && front + [last] == b;
      NonEmptyJoin(a, front);
      NonEmptyLast(a + front, last);
      NonEmptyLast(front, last);
      if last != [] {
        assert NonEmpty(a) + NonEmpty(front) + [last] == NonEmpty(a) + (NonEmpty(front) + [last]);
      }
    }
  }

  lemma NoneNonEmpty()
    ensures NonEmpty([]) == []
  {
  }

  lemma NonEmptyLast(all: seq<seq<string>>, records: seq<string>)
    ensures NonEmpty(all + [records]) == if records == [] then NonEmpty(all) else NonEmpty(all) + [records]
  {
    assert (all + [records])[..|all|] == all;
  }
}
