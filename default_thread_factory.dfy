/**
 * The thread factory behind the acceptor and poller threads: a naming strategy applied to a
 * per-factory counter that starts at 1, a daemon flag and a priority clamped to Java's range.
 * A thread is the value it is created with; starting it is not part of this model.
 */
module ThreadFactories {
  import opened JavaInts
  import opened JavaStrings

  const MIN_PRIORITY: int := 1
  const NORM_PRIORITY: int := 5
  const MAX_PRIORITY: int := 10

  /** `Math.max(MIN_PRIORITY, Math.min(MAX_PRIORITY, p))`. */
  function ClampPriority(p: int): (r: int)
    ensures MIN_PRIORITY <= r <= MAX_PRIORITY
    ensures MIN_PRIORITY <= p <= MAX_PRIORITY ==> r == p
    ensures p < MIN_PRIORITY ==> r == MIN_PRIORITY
    ensures p > MAX_PRIORITY ==> r == MAX_PRIORITY
  {
    if p > MAX_PRIORITY then MAX_PRIORITY else if p < MIN_PRIORITY then MIN_PRIORITY else p
  }

  /** The two built-in naming strategies. */
  datatype NameGenerator = NumberedPrefix(prefix: string) | FixedName(name: string)

  /** A task handed to `newThread`, identified by a number. */
  type TaskId = nat

  datatype Thread = Thread(name: string, task: TaskId, daemon: bool, priority: int)

  /** The name the strategy produces for the counter value `c`. */
  function NameFor(gen: NameGenerator, c: int): string
  {
    match gen
    case NumberedPrefix(prefix) => prefix + "-" + IntToString(c)
    case FixedName(name) => name
  }

  /** The counter after one name: the numbered strategy takes `getAndIncrement`, the fixed one leaves it. */
  function Advance(gen: NameGenerator, c: int): int
  {
    if gen.NumberedPrefix? then Wrap32(c + 1) else c
  }

  /** The counter of a new factory after `k` threads. */
  function CounterAfter(gen: NameGenerator, k: nat): (c: int)
    ensures IsInt32(c)
    ensures gen.FixedName? ==> c == 1
  {
    if gen.NumberedPrefix? then Wrap32(1 + k) else 1
  }

  /** The name of the thread a new factory creates after `k` others (the first is `k == 0`). */
  function NthName(gen: NameGenerator, k: nat): string
  {
    NameFor(gen, CounterAfter(gen, k))
  }

  class DefaultThreadFactory {
    const generator: NameGenerator
    const daemon: bool
    const priority: int
    var threadCounter: int

    ghost predicate Valid()
      reads this
    {
      IsInt32(threadCounter) && MIN_PRIORITY <= priority <= MAX_PRIORITY
    }

    constructor (generator: NameGenerator, daemon: bool, priority: int)
      ensures Valid()
      ensures this.generator == generator && this.daemon == daemon
      ensures this.priority == ClampPriority(priority) && threadCounter == CounterAfter(generator, 0)
    {
      this.generator := generator;
      this.daemon := daemon;
      this.priority := ClampPriority(priority);
      threadCounter := 1;
    }

    /** A thread running `task`, named by the strategy, with this factory's daemon flag and priority. */
    method NewThread(task: TaskId) returns (t: Thread)
      requires Valid()
      modifies this`threadCounter
      ensures Valid()
      ensures t == Thread(NameFor(generator, old(threadCounter)), task, daemon, priority)
      ensures threadCounter == Advance(generator, old(threadCounter))
    {
      var name: string;
      match generator {
        case NumberedPrefix(prefix) =>
          name := prefix + "-" + IntToString(threadCounter);
          threadCounter := Wrap32(threadCounter + 1);
        case FixedName(n) =>
          name := n;
      }
      t := Thread(name, task, daemon, priority);
    }
  }

  /** A factory naming its threads `prefix-1`, `prefix-2`, … */
  method CreateWithNumberedPrefix(prefix: string, daemon: bool, priority: int) returns (f: DefaultThreadFactory)
    ensures fresh(f) && f.Valid()
    ensures f.generator == NumberedPrefix(prefix) && f.daemon == daemon && f.priority == ClampPriority(priority)
    ensures f.threadCounter == 1
  {
    f := new DefaultThreadFactory(NumberedPrefix(prefix), daemon, priority);
  }

  /** A factory giving every thread the same name. */
  method CreateWithFixedName(name: string, daemon: bool, priority: int) returns (f: DefaultThreadFactory)
    ensures fresh(f) && f.Valid()
    ensures f.generator == FixedName(name) && f.daemon == daemon && f.priority == ClampPriority(priority)
    ensures f.threadCounter == 1
  {
    f := new DefaultThreadFactory(FixedName(name), daemon, priority);
  }

  /** One more thread moves the counter from its value after `k` threads to its value after `k + 1`. */
  lemma AdvanceCounter(gen: NameGenerator, k: nat)
    ensures Advance(gen, CounterAfter(gen, k)) == CounterAfter(gen, k + 1)
  {
    if gen.NumberedPrefix? {
      Wrap32Add(1 + k, 1);
    }
  }

  /** Until the counter overflows, the thread created after `k` others is named `prefix-(k+1)`. */
  lemma NumberedName(prefix: string, k: nat)
    requires k < INT_MAX
    ensures NthName(NumberedPrefix(prefix), k) == prefix + "-" + IntToString(k + 1)
  {
  }

  /** Before the counter overflows, a numbered factory never repeats a name. */
  lemma NumberedNamesDistinct(prefix: string, i: nat, j: nat)
    requires i < j < INT_MAX
    ensures NthName(NumberedPrefix(prefix), i) != NthName(NumberedPrefix(prefix), j)
  {
    var a, b := IntToString(i + 1), IntToString(j + 1);
    assert NthName(NumberedPrefix(prefix), i) == prefix + "-" + a by {
      assert CounterAfter(NumberedPrefix(prefix), i) == i + 1;
    }
    assert NthName(NumberedPrefix(prefix), j) == prefix + "-" + b by {
      assert CounterAfter(NumberedPrefix(prefix), j) == j + 1;
    }
    assert a != b by {
      if a == b {
        IntToStringInjective(i + 1, j + 1);
      }
    }
    SameHeadDistinctTails(prefix + "-", a, b);
  }

  lemma SameHeadDistinctTails(head: string, a: string, b: string)
    requires a != b
    ensures head + a != head + b
  {
    assert a == (head + a)[|head|..];
    assert b == (head + b)[|head|..];
  }

  /** The counter wraps: after 2^32 threads a numbered factory repeats its names. */
  lemma NamesRepeatAfterWrap(gen: NameGenerator, k: nat)
    ensures NthName(gen, k + TWO_32) == NthName(gen, k)
  {
    if gen.NumberedPrefix? {
      Wrap32Congruent(1 + k + TWO_32, 1 + k);
    }
  }

  /** Once `INT_MAX` is used, the next numbered name carries Java's most negative `int`. */
  lemma NumberedNameAfterOverflow(prefix: string)
    ensures NthName(NumberedPrefix(prefix), INT_MAX) == prefix + "-" + IntToString(INT_MIN)
  {
    assert 1 + INT_MAX - INT_MIN == TWO_32;
    assert Wrap32(1 + INT_MAX) == INT_MIN;
  }
}
