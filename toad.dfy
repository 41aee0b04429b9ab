/**
  The callback registry of the WebSocket library: a table from event name to the
  handlers registered for it, registration by decorator, and dispatch.

  Handlers are opaque values of a type `H`. What a handler returns when one
  dispatch calls it (with that dispatch's arguments) is given by a function
  `call: H -> Option<V>`, where `None` stands for Python's `None`.
 */
module Toad {
  import opened Wrappers

  /** What Python raises when the table has no entry for an event name. */
  datatype KeyError = KeyError(key: string)

  /** The callback table: event name to the handlers registered for it, in registration order. */
  type Table<H> = map<string, seq<H>>

  /** The event names the table is created with. */
  const EventNames: set<string> := {"open", "message", "error", "close"}

  /** The table as the module creates it: the four events, no handlers. */
  function InitialTable<H>(): (t: Table<H>)
    ensures t.Keys == EventNames
    ensures forall e :: e in t ==> t[e] == []
  {
    map["open" := [], "message" := [], "error" := [], "close" := []]
  }

  /** The table has exactly the four event names as keys. */
  predicate WellFormed<H>(t: Table<H>)
  {
    t.Keys == EventNames
  }

  /**
    The table after `callback` is appended to the list of `eventname`, or the
    KeyError raised when there is no such list.
   */
  function Appended<H>(t: Table<H>, eventname: string, callback: H): (r: Result<Table<H>, KeyError>)
    ensures r.Err? <==> eventname !in t
    ensures r.Err? ==> r.error == KeyError(eventname)
    ensures r.Ok? ==> r.value.Keys == t.Keys
    ensures r.Ok? ==> r.value[eventname] == t[eventname] + [callback]
    ensures r.Ok? ==> forall e :: e in t && e != eventname ==> r.value[e] == t[e]
  {
    if eventname in t then Ok(t[eventname := t[eventname] + [callback]]) else Err(KeyError(eventname))
  }

  /** Registration through any of the four registrars keeps the table well formed. */
  lemma AppendedKeepsWellFormed<H>(t: Table<H>, eventname: string, callback: H)
    requires WellFormed(t)
    requires eventname in EventNames
    ensures Appended(t, eventname, callback).Ok?
    ensures WellFormed(Appended(t, eventname, callback).value)
  {
  }

  /**
    What `_callback_decorator_for` builds: a decorator that registers for one
    event, together with the `__name__` it is given.
   */
  datatype Decorator = Decorator(eventname: string, name: string)

  function CallbackDecoratorFor(eventname: string): Decorator
  {
    Decorator(eventname, "on" + eventname)
  }

  const OnOpen: Decorator := CallbackDecoratorFor("open")
  const OnMessage: Decorator := CallbackDecoratorFor("message")
  const OnError: Decorator := CallbackDecoratorFor("error")
  const OnClose: Decorator := CallbackDecoratorFor("close")

  /** The four public registrars register for exactly the four events of the table, under their own names. */
  lemma RegistrarsCoverEvents()
    ensures {OnOpen.eventname, OnMessage.eventname, OnError.eventname, OnClose.eventname} == EventNames
    ensures OnOpen.name == "onopen" && OnMessage.name == "onmessage"
    ensures OnError.name == "onerror" && OnClose.name == "onclose"
  {
  }

  /** The results one dispatch gets from the handlers, in list order. */
  function Results<H, V>(handlers: seq<H>, call: H -> Option<V>): seq<Option<V>>
  {
    seq(|handlers|, i requires 0 <= i < |handlers| => call(handlers[i]))
  }

  /** The last result that is not `None`, or `None` when there is none. */
  function LastSome<V>(rs: seq<Option<V>>): Option<V>
  {
    if rs == [] then None
    else if rs[|rs| - 1].Some? then rs[|rs| - 1]
    else LastSome(rs[..|rs| - 1])
  }

  /** Dispatch yields `None` exactly when every handler returned `None` (in particular when there are no handlers). */
  lemma {:induction false} LastSomeNone<V>(rs: seq<Option<V>>)
    ensures LastSome(rs) == None <==> forall i :: 0 <= i < |rs| ==> rs[i] == None
  {
    if rs != [] {
      LastSomeNone(rs[..|rs| - 1]);
      if rs[|rs| - 1] == None {
        assert forall i :: 0 <= i < |rs| - 1 ==> rs[..|rs| - 1][i] == rs[i];
      }
    }
  }

  /** A non-`None` result followed only by `None` results is the one dispatch returns. */
  lemma {:induction false} LastSomeIsLast<V>(rs: seq<Option<V>>, i: nat)
    requires i < |rs| && rs[i].Some?
    requires forall j :: i < j < |rs| ==> rs[j].None?
    ensures LastSome(rs) == rs[i]
  {
    if i < |rs| - 1 {
      var front := rs[..|rs| - 1];
      assert forall j :: i < j < |front| ==> front[j] == rs[j];
      LastSomeIsLast(front, i);
    }
  }

  /** Conversely, a non-`None` dispatch result is some handler's result with only `None` after it. */
  lemma {:induction false} LastSomeWitness<V>(rs: seq<Option<V>>)
    requires LastSome(rs).Some?
    ensures exists i :: 0 <= i < |rs| && rs[i] == LastSome(rs) && forall j :: i < j < |rs| ==> rs[j].None?
  {
    var n := |rs| - 1;
    if rs[n].Some? {
      assert rs[n] == LastSome(rs);
    } else {
      var front := rs[..n];
      LastSomeWitness(front);
      var i :| 0 <= i < |front| && front[i] == LastSome(front) && forall j :: i < j < |front| ==> front[j].None?;
      assert forall j :: i < j < |rs| ==> rs[j].None? by {
        forall j | i < j < |rs| ensures rs[j].None? {
          if j < n { assert rs[j] == front[j]; }
        }
      }
      assert rs[i] == LastSome(rs);
    }
  }

  /**
    Later handlers override earlier ones: dispatch over the handlers of `a`
    followed by those of `b` keeps `b`'s result unless all of `b` returned `None`.
   */
  lemma {:induction false} LastSomeAppend<V>(a: seq<Option<V>>, b: seq<Option<V>>)
    ensures LastSome(a + b) == if LastSome(b).Some? then LastSome(b) else LastSome(a)
  {
    if b == [] {
      assert a + b == a;
    } else {
      var n := |b| - 1;
      assert (a + b)[..|a + b| - 1] == a + b[..n];
      if b[n].None? {
        LastSomeAppend(a, b[..n]);
      }
    }
  }

  /** The process-wide callback table, with registration and dispatch. */
  class Callbacks<H> {
    var table: Table<H>

    /** The table as the module defines it. */
    constructor ()
      ensures table == InitialTable()
      ensures WellFormed(table)
    {
      table := InitialTable();
    }

    /**
      Applying decorator `d` to `callback`: append it to its event's list and
      return it unchanged, or raise KeyError for an event the table does not have.
     */
    method Decorate(d: Decorator, callback: H) returns (r: Result<H, KeyError>)
      modifies this
      ensures match Appended(old(table), d.eventname, callback)
              case Ok(t) => r == Ok(callback) && table == t
              case Err(e) => r == Err(e) && table == old(table)
      ensures WellFormed(old(table)) ==> WellFormed(table)
    {
      if d.eventname in table {
        table := table[d.eventname := table[d.eventname] + [callback]];
        r := Ok(callback);
      } else {
        r := Err(KeyError(d.eventname));
      }
    }

    /**
      Dispatch of `eventname`: call its handlers once each, in registration
      order, and return the last result that is not `None`. `invoked` lists the
      handlers called, in the order they were called.
     */
    method On<V>(eventname: string, call: H -> Option<V>) returns (r: Result<Option<V>, KeyError>, invoked: seq<H>)
      ensures eventname !in table ==> r == Err(KeyError(eventname)) && invoked == []
      ensures eventname in table ==> invoked == table[eventname]
      ensures eventname in table ==> r == Ok(LastSome(Results(table[eventname], call)))
    {
      if eventname !in table {
        return Err(KeyError(eventname)), [];
      }
      var handlers := table[eventname];
      ghost var rs := Results(handlers, call);
      var ret: Option<V> := None;
      invoked := [];
      for i := 0 to |handlers|
        invariant invoked == handlers[..i]
        invariant ret == LastSome(rs[..i])
      {
        var value := call(handlers[i]);
        invoked := invoked + [handlers[i]];
        assert rs[..i + 1][..i] == rs[..i];
        if value.Some? {
          ret := value;
        }
      }
      assert rs[..|handlers|] == rs;
      assert handlers[..|handlers|] == handlers;
      r := Ok(ret);
    }
  }
}
