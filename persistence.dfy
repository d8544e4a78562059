/** The entity manager as an abstract store: the entities it manages, in
    the order they were persisted, the number of flushes, and the rows of
    the user repository that `findOneBy` searches. */
module Persistence {
  import opened Common
  import opened Collections
  import opened Organization

  class EntityManager {
    var managed: seq<object>
    var flushCount: nat
    const users: seq<User>

    constructor (users: seq<User>)
      ensures managed == [] && flushCount == 0 && this.users == users
    {
      managed := [];
      flushCount := 0;
      this.users := users;
    }

    /** Persisting an entity the manager already manages does nothing. */
    method Persist(x: object)
      modifies this`managed
      ensures managed == AddOnce(old(managed), x)
    {
      if x !in managed {
        managed := managed + [x];
      }
    }

    /** A flush as seen from outside the listener that reacts to it. */
    method Flush()
      modifies this`flushCount
      ensures flushCount == old(flushCount) + 1
    {
      flushCount := flushCount + 1;
    }
  }

  /** The store after persisting `xs` one after the other: what was
      managed before stays, in place. */
  function PersistAll(managed: seq<object>, xs: seq<object>): (r: seq<object>)
    ensures |managed| <= |r| && r[..|managed|] == managed
  {
    if xs == [] then managed
    else AddOnce(PersistAll(managed, xs[..|xs| - 1]), xs[|xs| - 1])
  }

  /** After persisting a batch, every entity of it is managed, nothing else
      is added, and no entity is managed twice. */
  lemma {:induction false} PersistAllContents(managed: seq<object>, xs: seq<object>)
    ensures forall x :: x in xs ==> x in PersistAll(managed, xs)
    ensures forall x :: x in PersistAll(managed, xs) ==> x in managed || x in xs
    ensures NoDup(managed) ==> NoDup(PersistAll(managed, xs))
  {
    if xs != [] {
      var init := xs[..|xs| - 1];
      PersistAllContents(managed, init);
      assert xs == init + [xs[|xs| - 1]];
    }
  }

  /** Persisting one more entity of a batch. */
  lemma PersistAllStep(managed: seq<object>, xs: seq<object>, i: nat)
    requires i < |xs|
    ensures PersistAll(managed, xs[..i + 1]) == AddOnce(PersistAll(managed, xs[..i]), xs[i])
  {
    assert xs[..i + 1][..i] == xs[..i];
  }

  /** Persisting two batches one after the other is persisting them as one. */
  lemma {:induction false} PersistAllAppend(managed: seq<object>, a: seq<object>, b: seq<object>)
    ensures PersistAll(PersistAll(managed, a), b) == PersistAll(managed, a + b)
  {
    if b != [] {
      var init := b[..|b| - 1];
      PersistAllAppend(managed, a, init);
      assert (a + b)[..|a + b| - 1] == a + init;
      assert (a + b)[|a + b| - 1] == b[|b| - 1];
    } else {
      assert a + b == a;
    }
  }

  /** Persisting entities that are all managed already adds nothing. */
  lemma {:induction false} AlreadyManaged(managed: seq<object>, xs: seq<object>)
    requires forall x :: x in xs ==> x in managed
    ensures PersistAll(managed, xs) == managed
  {
    if xs != [] {
      var init := xs[..|xs| - 1];
      assert forall x :: x in init ==> x in xs;
      AlreadyManaged(managed, init);
    }
  }

  /** Persisting entities that are all new and distinct appends them. */
  lemma {:induction false} PersistAllNew(managed: seq<object>, xs: seq<object>)
    requires NoDup(xs)
    requires forall x :: x in xs ==> x !in managed
    ensures PersistAll(managed, xs) == managed + xs
  {
    if xs != [] {
      var init, last := xs[..|xs| - 1], xs[|xs| - 1];
      NoDupInit(xs);
      assert PersistAll(managed, init) == managed + init by {
        assert forall x :: x in init ==> x in xs;
        PersistAllNew(managed, init);
      }
      assert last !in managed + init;
      assert xs == init + [last];
    }
  }

  /** `findOneBy(['username' => name])`: the first user row with that
      username, or null when there is none. */
  function FindOneByUsername(users: seq<User>, name: string): (u: User?)
    reads set x | x in users
    ensures u != null ==> u in users && u.username.Some? && u.username.value == name
    ensures u == null ==> forall x :: x in users ==> x.username != Some(name)
  {
    if users == [] then null
    else if users[0].username == Some(name) then users[0]
    else FindOneByUsername(users[1..], name)
  }
}
