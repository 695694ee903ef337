/** The part of Python's `logging` package the rotator drives: handlers, which
    stand for open output files, and the logger's list of attached handlers,
    which `addHandler` and `removeHandler` change (rotator.py:21, 28-29) and
    which every record is sent to (rotator.py:54).

    A handler is an object whose identity is all that matters here: what it
    does with a record (open, write, rename, compare inodes) is the library's
    business and is not modelled. `Attach` and `Detach` are the library's
    documented list updates: `addHandler` appends a handler that is not yet
    attached, and `removeHandler` removes it if it is. */
module Logging {

  /** The three `logging` handler classes the rotator builds. */
  datatype HandlerKind =
    /** `logging.handlers.WatchedFileHandler` (rotator.py:61) */
    | WatchedFile
    /** `logging.FileHandler` (rotator.py:71, 75) */
    | PlainFile
    /** `logging.handlers.RotatingFileHandler` with `maxBytes` and `backupCount` (rotator.py:89) */
    | RotatingFile(maxBytes: nat, backupCount: int)

  /** A handler object: what it writes to and how it opens it. */
  class Handler {
    const kind: HandlerKind
    const path: string
    const mode: string

    constructor (kind: HandlerKind, path: string, mode: string)
      ensures this.kind == kind && this.path == path && this.mode == mode
    {
      this.kind := kind;
      this.path := path;
      this.mode := mode;
    }
  }

  /** One record the logger emitted, with the handlers it went to. */
  datatype Record = Record(message: string, handlers: seq<Handler>)

  predicate NoDuplicates<T(==)>(s: seq<T>) {
    forall i, j :: 0 <= i < j < |s| ==> s[i] != s[j]
  }

  /** `addHandler`: appends `h` unless it is attached already. */
  function Attach<T(==)>(hs: seq<T>, h: T): (r: seq<T>)
    ensures h in r
    ensures forall i :: 0 <= i < |hs| ==> hs[i] in r
    ensures forall i :: 0 <= i < |r| ==> r[i] in hs || r[i] == h
    ensures NoDuplicates(hs) ==> NoDuplicates(r)
    ensures |r| == if h in hs then |hs| else |hs| + 1
  {
    if h in hs then hs else hs + [h]
  }

  /** `removeHandler`: removes the first occurrence of `h`, if any. */
  function Detach<T(==)>(hs: seq<T>, h: T): (r: seq<T>)
    ensures forall i :: 0 <= i < |r| ==> r[i] in hs
    ensures forall i :: 0 <= i < |hs| && hs[i] != h ==> hs[i] in r
    ensures |r| == if h in hs then |hs| - 1 else |hs|
    ensures NoDuplicates(hs) ==> h !in r && NoDuplicates(r)
  {
    if hs == [] then []
    else if hs[0] == h then hs[1..]
    else [hs[0]] + Detach(hs[1..], h)
  }

  /** `removeHandler` takes exactly one copy of the handler off, if there is
      one, and every other entry stays, as many times as it was there. */
  lemma {:induction false} DetachMultiset<T>(hs: seq<T>, h: T)
    ensures multiset(Detach(hs, h)) == if h in hs then multiset(hs) - multiset{h} else multiset(hs)
  {
    if hs != [] {
      assert hs == [hs[0]] + hs[1..];
      if hs[0] != h {
        DetachMultiset(hs[1..], h);
      }
    }
  }

  /** Attaching the new handler and then detaching the old one, as `reopen`
      does: the handlers afterwards are the ones before, plus the new one,
      less the old one; and neither step leaves the list empty. */
  lemma SwapHandlers<T>(hs: seq<T>, current: T, replacement: T)
    requires NoDuplicates(hs) && current in hs && current != replacement
    ensures Attach(hs, replacement) != []
    ensures Detach(Attach(hs, replacement), current) != []
    ensures forall x :: x in Detach(Attach(hs, replacement), current) <==> (x in hs || x == replacement) && x != current
  {
    assert replacement in Detach(Attach(hs, replacement), current);
  }

  /** The other order would lose records: detaching the only handler before
      attaching its successor leaves the logger with no handler at all. */
  lemma DetachFirstLeavesNone<T>(current: T, replacement: T)
    ensures Detach([current], current) == []
    ensures Attach(Detach([current], current), replacement) == [replacement]
  {
  }

  /** Swapping a handler for itself detaches it: `addHandler` does nothing
      and `removeHandler` then takes it off. */
  lemma SwapWithItself<T>(hs: seq<T>, h: T)
    requires NoDuplicates(hs) && h in hs
    ensures h !in Detach(Attach(hs, h), h)
  {
  }

  /** The records that logging each message in turn, with the handlers `hs`
      attached throughout, emits. */
  function Deliveries(messages: seq<string>, hs: seq<Handler>): (r: seq<Record>)
    ensures |r| == |messages|
  {
    if messages == [] then []
    else Deliveries(messages[..|messages| - 1], hs) + [Record(messages[|messages| - 1], hs)]
  }

  /** The i-th record emitted carries the i-th message, and every record goes
      to the same handlers. */
  lemma {:induction false} DeliveredInOrder(messages: seq<string>, hs: seq<Handler>)
    ensures forall i :: 0 <= i < |messages| ==> Deliveries(messages, hs)[i] == Record(messages[i], hs)
  {
    if messages != [] {
      DeliveredInOrder(messages[..|messages| - 1], hs);
    }
  }

  lemma DeliveriesPrefix(messages: seq<string>, i: nat, hs: seq<Handler>)
    requires i < |messages|
    ensures Deliveries(messages[..i + 1], hs) == Deliveries(messages[..i], hs) + [Record(messages[i], hs)]
  {
    assert messages[..i + 1][..i] == messages[..i];
  }

  /** The logger: its attached handlers and the records it has emitted.
      `history` is every list of handlers the logger has had, the current one
      last, so that what held between two updates can be stated. */
  class Logger {
    var handlers: seq<Handler>
    var records: seq<Record>
    ghost var history: seq<seq<Handler>>

    ghost predicate Valid()
      reads this
    {
      && history != []
      && history[|history| - 1] == handlers
      && NoDuplicates(handlers)
    }

    /** A logger with no handlers: `logging.getLogger` before anything was
        attached to it. */
    constructor ()
      ensures Valid()
      ensures handlers == [] && records == [] && history == [[]]
    {
      handlers, records := [], [];
      history := [[]];
    }

    method AddHandler(h: Handler)
      requires Valid()
      modifies this
      ensures Valid()
      ensures handlers == Attach(old(handlers), h)
      ensures history == old(history) + [handlers]
      ensures records == old(records)
    {
      handlers := Attach(handlers, h);
      history := history + [handlers];
    }

    method RemoveHandler(h: Handler)
      requires Valid()
      modifies this
      ensures Valid()
      ensures handlers == Detach(old(handlers), h)
      ensures history == old(history) + [handlers]
      ensures records == old(records)
    {
      handlers := Detach(handlers, h);
      history := history + [handlers];
    }

    /** `logger.debug(message)`: the level is DEBUG, so the record is always
        emitted, to every handler attached at that moment. */
    method Debug(message: string)
      requires Valid()
      modifies this
      ensures Valid()
      ensures records == old(records) + [Record(message, handlers)]
      ensures handlers == old(handlers) && history == old(history)
    {
      records := records + [Record(message, handlers)];
    }
  }
}
