// The greeting panel's time-of-day greeting, chosen from the hour of the local clock.

module Greeting {
  datatype TimeOfDay = Morning | Afternoon | Evening | Night

  datatype TimeGreeting = TimeGreeting(greeting: string, emoji: string)

  /** The bucket an hour falls in: mornings from 5 to 11, afternoons from 12 to 16,
      evenings from 17 to 20, and night for every other hour. */
  function Bucket(hour: int): (t: TimeOfDay)
    ensures t == Morning <==> 5 <= hour < 12
    ensures t == Afternoon <==> 12 <= hour < 17
    ensures t == Evening <==> 17 <= hour < 21
    ensures t == Night <==> hour < 5 || hour >= 21
  {
    if 5 <= hour < 12 then Morning
    else if 12 <= hour < 17 then Afternoon
    else if 17 <= hour < 21 then Evening
    else Night
  }

  function GreetingOf(t: TimeOfDay): TimeGreeting
  {
    match t
    case Morning => TimeGreeting("Good Morning", "\U{1F305}")
    case Afternoon => TimeGreeting("Good Afternoon", "☀️")
    case Evening => TimeGreeting("Good Evening", "\U{1F306}")
    case Night => TimeGreeting("Good Night", "\U{1F319}")
  }

  /** `getTimeOfDay`, for the hour `hour` of the clock. */
  function TimeGreetingAt(hour: int): (g: TimeGreeting)
    ensures g == GreetingOf(Bucket(hour))
  {
    if hour >= 5 && hour < 12 then TimeGreeting("Good Morning", "\U{1F305}")
    else if hour >= 12 && hour < 17 then TimeGreeting("Good Afternoon", "☀️")
    else if hour >= 17 && hour < 21 then TimeGreeting("Good Evening", "\U{1F306}")
    else TimeGreeting("Good Night", "\U{1F319}")
  }

  /** The hours of each bucket, counted over a day. */
  function HoursIn(t: TimeOfDay, from: int): (n: nat)
    requires 0 <= from <= 24
    decreases 24 - from
  {
    if from == 24 then 0 else (if Bucket(from) == t then 1 else 0) + HoursIn(t, from + 1)
  }

  /** Over the 24 hours of a day each greeting is distinct, and the buckets hold 7, 5, 4 and
      8 hours: together, all 24. */
  lemma BucketsPartitionTheDay()
    ensures HoursIn(Morning, 0) == 7 && HoursIn(Afternoon, 0) == 5
    ensures HoursIn(Evening, 0) == 4 && HoursIn(Night, 0) == 8
    ensures forall t, u :: t != u ==> GreetingOf(t).greeting != GreetingOf(u).greeting
  {
    Counts(Morning);
    Counts(Afternoon);
    Counts(Evening);
    Counts(Night);
    GreetingsDistinct();
  }

  lemma GreetingsDistinct()
    ensures forall t, u :: t != u ==> GreetingOf(t).greeting != GreetingOf(u).greeting
  {
  }

  /** The hours of one bucket, counted run by run: night, morning, afternoon, evening, night. */
  lemma Counts(t: TimeOfDay)
    ensures HoursIn(t, 0) == (if t == Night then 5 + 3 else 0) + (if t == Morning then 7 else 0)
      + (if t == Afternoon then 5 else 0) + (if t == Evening then 4 else 0)
  {
    Run(t, Night, 0, 5);
    CountsFromMorning(t);
  }

  lemma CountsFromMorning(t: TimeOfDay)
    ensures HoursIn(t, 5) == (if t == Night then 3 else 0) + (if t == Morning then 7 else 0)
      + (if t == Afternoon then 5 else 0) + (if t == Evening then 4 else 0)
  {
    Run(t, Morning, 5, 12);
    CountsFromAfternoon(t);
  }

  lemma CountsFromAfternoon(t: TimeOfDay)
    ensures HoursIn(t, 12) == (if t == Night then 3 else 0)
      + (if t == Afternoon then 5 else 0) + (if t == Evening then 4 else 0)
  {
    Run(t, Afternoon, 12, 17);
    CountsFromEvening(t);
  }

  lemma CountsFromEvening(t: TimeOfDay)
    ensures HoursIn(t, 17) == (if t == Night then 3 else 0) + (if t == Evening then 4 else 0)
  {
    Run(t, Evening, 17, 21);
    Run(t, Night, 21, 24);
  }

  /** The hours from a up to b all lie in the range of bucket c. */
  predicate Within(c: TimeOfDay, a: int, b: int)
  {
    match c
    case Morning => 5 <= a && b <= 12
    case Afternoon => 12 <= a && b <= 17
    case Evening => 17 <= a && b <= 21
    case Night => b <= 5 || 21 <= a
  }

  /** Across a run of hours that all fall in bucket `c`, the count of `t` grows by the run's
      length when `t` is `c`, and not at all otherwise. */
  lemma {:induction false} Run(t: TimeOfDay, c: TimeOfDay, a: int, b: int)
    requires 0 <= a <= b <= 24 && Within(c, a, b)
    ensures HoursIn(t, a) == HoursIn(t, b) + if t == c then b - a else 0
    decreases b - a
  {
    if a < b {
      Run(t, c, a + 1, b);
    }
  }

  /** The greeting changes only when the hour crosses 5, 12, 17 or 21. */
  lemma GreetingChangesAtBoundaries(hour: int)
    requires 0 <= hour < 23
    ensures TimeGreetingAt(hour) != TimeGreetingAt(hour + 1) <==> hour + 1 in {5, 12, 17, 21}
  {
  }
}
