/** `AtomicCounter` and `LabeledCounter` as objects, seen by one thread. */
module LabeledCounter {
  import opened Counters

  class AtomicCounter {
    var value: int

    constructor (initial: int)
      ensures value == initial
    {
      value := initial;
    }

    method Inc()
      modifies this
      ensures value == old(value) + 1
    {
      value := value + 1;
    }

    method Add(amount: int)
      modifies this
      ensures value == old(value) + amount
    {
      value := value + amount;
    }
  }

  class Counter {
    var counters: map<Labels, AtomicCounter>

    /** Different labels have different counter objects. */
    ghost predicate Valid()
      reads this
    {
      forall k, l :: k in counters && l in counters && k != l ==> counters[k] != counters[l]
    }

    constructor ()
      ensures Valid() && counters == map[]
    {
      counters := map[];
    }

    /** `with_labels`: looks the labels up and creates their counter if there is none. */
    method WithLabels(labels: Labels) returns (c: AtomicCounter)
      requires Valid()
      modifies this
      ensures Valid() && labels in counters && counters[labels] == c
      ensures labels in old(counters) ==> counters == old(counters)
      ensures labels !in old(counters) ==> fresh(c) && c.value == 0 && counters == old(counters)[labels := c]
    {
      if labels in counters {
        return counters[labels];
      }
      c := new AtomicCounter(0);
      assert forall k :: k in counters ==> counters[k] != c;
      counters := counters[labels := c];
    }

    /** `inc`: one value is one higher, from nothing if it is new; every other is where and what it was. */
    method Inc(labels: Labels)
      requires Valid()
      modifies this, counters.Values
      ensures Valid() && fresh(counters.Values - old(counters.Values))
      ensures counters.Keys == old(counters.Keys) + {labels}
      ensures forall k :: k in old(counters) ==> counters[k] == old(counters[k])
      ensures counters[labels].value == (if labels in old(counters) then old(counters[labels].value) else 0) + 1
      ensures forall k :: k in old(counters) && k != labels ==> counters[k].value == old(counters[k].value)
    {
      var c := WithLabels(labels);
      c.Inc();
    }

    /** `add`. */
    method Add(amount: int, labels: Labels)
      requires Valid()
      modifies this, counters.Values
      ensures Valid() && fresh(counters.Values - old(counters.Values))
      ensures counters.Keys == old(counters.Keys) + {labels}
      ensures forall k :: k in old(counters) ==> counters[k] == old(counters[k])
      ensures counters[labels].value == (if labels in old(counters) then old(counters[labels].value) else 0) + amount
      ensures forall k :: k in old(counters) && k != labels ==> counters[k].value == old(counters[k].value)
    {
      var c := WithLabels(labels);
      c.Add(amount);
    }
  }
}
