/** The hero-line typing animation. A cursor walks over a list of phrases:
    each tick shows one more character of the current phrase, or one fewer
    while deleting; a fully typed phrase starts deleting after a pause, and
    a fully deleted one gives way to the next phrase, wrapping around. */
module Typing {
  import opened PageState

  /** The three fields a tick updates: which phrase, how many of its
      characters are shown, and whether the animation is deleting. */
  datatype Cursor = Cursor(textIndex: int, charIndex: int, deleting: bool)

  /** Delays, in milliseconds, handed to the timer before the next tick. */
  datatype Speeds = Speeds(typeSpeed: nat, deleteSpeed: nat, pauseTime: nat)

  /** Caller-supplied options; an absent entry keeps its default. */
  datatype Overrides = Overrides(typeSpeed: Option<nat>, deleteSpeed: Option<nat>, pauseTime: Option<nat>)

  const NoOverrides := Overrides(None, None, None)
  const DefaultSpeeds := Speeds(100, 50, 2000)
  const Origin := Cursor(0, 0, false)

  /** The phrases the page animates. */
  const SitePhrases: seq<string> :=
    ["Fullstack Developer", "Frontend Engineer", "UI/UX Designer", "Problem Solver", "Creative Thinker"]

  function OrDefault(o: Option<nat>, d: nat): nat {
    if o.Some? then o.value else d
  }

  /** The defaults with the caller's options spread over them. */
  function Configure(o: Overrides): (sp: Speeds)
    ensures sp.typeSpeed == (if o.typeSpeed.Some? then o.typeSpeed.value else 100)
    ensures sp.deleteSpeed == (if o.deleteSpeed.Some? then o.deleteSpeed.value else 50)
    ensures sp.pauseTime == (if o.pauseTime.Some? then o.pauseTime.value else 2000)
  {
    Speeds(OrDefault(o.typeSpeed, DefaultSpeeds.typeSpeed),
           OrDefault(o.deleteSpeed, DefaultSpeeds.deleteSpeed),
           OrDefault(o.pauseTime, DefaultSpeeds.pauseTime))
  }

  /** The page starts its animation without options, so it runs at the
      default speeds. */
  lemma PageUsesDefaults()
    ensures Configure(NoOverrides) == DefaultSpeeds
  {
  }

  /** `s.substring(0, k)`: the end index is clamped into [0, |s|]. */
  function PrefixUpTo(s: string, k: int): (r: string)
    ensures r <= s
    ensures 0 <= k <= |s| ==> |r| == k
    ensures k <= 0 ==> r == []
    ensures |s| <= k ==> r == s
  {
    if k < 0 then [] else if k > |s| then s else s[..k]
  }

  predicate InRange(texts: seq<string>, c: Cursor) {
    0 <= c.textIndex < |texts|
  }

  predicate NoEmptyPhrase(texts: seq<string>) {
    forall i | 0 <= i < |texts| :: texts[i] != []
  }

  /** The bound the animation keeps as long as no phrase is empty: the
      character index lies within the current phrase, a typing cursor has
      not yet reached the end and a deleting one has not yet reached 0. */
  predicate Bounded(texts: seq<string>, c: Cursor) {
    && InRange(texts, c)
    && 0 <= c.charIndex <= |texts[c.textIndex]|
    && (c.deleting ==> 1 <= c.charIndex)
    && (!c.deleting ==> c.charIndex < |texts[c.textIndex]|)
  }

  /** The cursor after one tick. */
  function Next(texts: seq<string>, c: Cursor): (r: Cursor)
    requires InRange(texts, c)
    ensures InRange(texts, r)
    // one character more while typing, one fewer while deleting
    ensures !c.deleting ==> r.charIndex == c.charIndex + 1
    ensures c.deleting ==> r.charIndex == c.charIndex - 1
    // typing turns into deleting exactly when the phrase is complete
    ensures !c.deleting ==> (r.deleting <==> r.charIndex == |texts[c.textIndex]|)
    // deleting turns into typing exactly when nothing is left, and only then
    // does the phrase change, to the next one in order
    ensures c.deleting ==> (r.deleting <==> r.charIndex != 0)
    ensures r.textIndex != c.textIndex ==> c.deleting && r.charIndex == 0
    ensures c.deleting && r.charIndex == 0 ==> r.textIndex == (c.textIndex + 1) % |texts|
    ensures NoEmptyPhrase(texts) && Bounded(texts, c) ==> Bounded(texts, r)
  {
    var n := if c.deleting then c.charIndex - 1 else c.charIndex + 1;
    if !c.deleting && n == |texts[c.textIndex]| then Cursor(c.textIndex, n, true)
    else if c.deleting && n == 0 then Cursor((c.textIndex + 1) % |texts|, 0, false)
    else Cursor(c.textIndex, n, c.deleting)
  }

  /** The text a tick from `c` writes into the element. */
  function Shown(texts: seq<string>, c: Cursor): (r: string)
    requires InRange(texts, c)
    ensures r <= texts[c.textIndex]
    ensures Bounded(texts, c) ==> |r| == Next(texts, c).charIndex
  {
    PrefixUpTo(texts[c.textIndex], if c.deleting then c.charIndex - 1 else c.charIndex + 1)
  }

  /** The delay a tick from `c` schedules the following tick with. */
  function Delay(texts: seq<string>, sp: Speeds, c: Cursor): (d: nat)
    requires InRange(texts, c)
    ensures !c.deleting && Next(texts, c).deleting ==> d == sp.pauseTime
    ensures c.deleting ==> d == sp.deleteSpeed
    ensures !c.deleting && !Next(texts, c).deleting ==> d == sp.typeSpeed
  {
    if !c.deleting && c.charIndex + 1 == |texts[c.textIndex]| then sp.pauseTime
    else if c.deleting then sp.deleteSpeed
    else sp.typeSpeed
  }

  /** The cursor after `k` ticks. */
  function Run(texts: seq<string>, c: Cursor, k: nat): (r: Cursor)
    requires InRange(texts, c)
    ensures InRange(texts, r)
    decreases k
  {
    if k == 0 then c else Run(texts, Next(texts, c), k - 1)
  }

  lemma {:induction false} RunAdd(texts: seq<string>, c: Cursor, a: nat, b: nat)
    requires InRange(texts, c)
    ensures Run(texts, c, a + b) == Run(texts, Run(texts, c, a), b)
    decreases a
  {
    if a > 0 {
      RunAdd(texts, Next(texts, c), a - 1, b);
    }
  }

  /** Every tick keeps the bound when no phrase is empty. */
  lemma {:induction false} RunKeepsBounded(texts: seq<string>, c: Cursor, k: nat)
    requires NoEmptyPhrase(texts) && Bounded(texts, c)
    ensures Bounded(texts, Run(texts, c, k))
    decreases k
  {
    if k > 0 {
      RunKeepsBounded(texts, Next(texts, c), k - 1);
    }
  }

  /** Typing a phrase from `ch` characters takes |phrase| - ch ticks and
      ends with the whole phrase shown, now deleting. */
  lemma {:induction false} TypesToEnd(texts: seq<string>, t: int, ch: int)
    requires 0 <= t < |texts| && 0 <= ch < |texts[t]|
    ensures Run(texts, Cursor(t, ch, false), |texts[t]| - ch) == Cursor(t, |texts[t]|, true)
    decreases |texts[t]| - ch
  {
    var c := Cursor(t, ch, false);
    if ch + 1 < |texts[t]| {
      assert Next(texts, c) == Cursor(t, ch + 1, false);
      TypesToEnd(texts, t, ch + 1);
    } else {
      assert Next(texts, c) == Cursor(t, |texts[t]|, true);
    }
  }

  /** Deleting from `ch` characters takes `ch` ticks and ends at the start
      of the next phrase, typing. */
  lemma {:induction false} DeletesToStart(texts: seq<string>, t: int, ch: int)
    requires 0 <= t < |texts| && 1 <= ch
    ensures Run(texts, Cursor(t, ch, true), ch) == Cursor((t + 1) % |texts|, 0, false)
    decreases ch
  {
    var c := Cursor(t, ch, true);
    if ch > 1 {
      assert Next(texts, c) == Cursor(t, ch - 1, true);
      DeletesToStart(texts, t, ch - 1);
    } else {
      assert Next(texts, c) == Cursor((t + 1) % |texts|, 0, false);
    }
  }

  /** One full cycle over a non-empty phrase: 2 * |phrase| ticks lead from
      its empty start to the empty start of the next phrase. */
  lemma PhraseCycle(texts: seq<string>, t: int)
    requires 0 <= t < |texts| && texts[t] != []
    ensures Run(texts, Cursor(t, 0, false), 2 * |texts[t]|) == Cursor((t + 1) % |texts|, 0, false)
  {
    var len := |texts[t]|;
    RunAdd(texts, Cursor(t, 0, false), len, len);
    TypesToEnd(texts, t, 0);
    DeletesToStart(texts, t, len);
  }

  /** The phrase the animation stands at after `m` full cycles from the
      first phrase: each cycle moves on to the next phrase, wrapping. */
  function PhraseAfter(n: nat, m: nat): (t: nat)
    requires n > 0
    ensures t < n
  {
    if m == 0 then 0 else (PhraseAfter(n, m - 1) + 1) % n
  }

  /** The number of ticks that the first `m` phrase cycles take, counted
      from the first phrase. */
  function CyclesLength(texts: seq<string>, m: nat): nat
    requires |texts| > 0
  {
    if m == 0 then 0 else CyclesLength(texts, m - 1) + 2 * |texts[PhraseAfter(|texts|, m - 1)]|
  }

  lemma MulSmall(n: int, k: int)
    requires n > 0 && -n < n * k < n
    ensures k == 0
  {
  }

  /** Euclidean remainders are unique. */
  lemma ModUnique(a: int, n: int, q: int, r: int)
    requires n > 0 && a == n * q + r && 0 <= r < n
    ensures a % n == r
  {
    var q', r' := a / n, a % n;
    assert n * (q - q') == r' - r;
    MulSmall(n, q - q');
  }

  lemma ModSucc(a: nat, n: nat)
    requires n > 0
    ensures (a % n + 1) % n == (a + 1) % n
  {
    var q, r := a / n, a % n;
    if r + 1 < n {
      ModUnique(a + 1, n, q, r + 1);
      ModUnique(r + 1, n, 0, r + 1);
    } else {
      ModUnique(a + 1, n, q + 1, 0);
      ModUnique(r + 1, n, 1, 0);
    }
  }

  /** A run that has reached the start of phrase t reaches the start of the
      following phrase u one cycle later. */
  lemma CycleStep(texts: seq<string>, before: nat, t: int, u: int)
    requires 0 <= t < |texts| && texts[t] != [] && u == (t + 1) % |texts|
    requires Run(texts, Origin, before) == Cursor(t, 0, false)
    ensures Run(texts, Origin, before + 2 * |texts[t]|) == Cursor(u, 0, false)
  {
    RunAdd(texts, Origin, before, 2 * |texts[t]|);
    PhraseCycle(texts, t);
  }

  /** The phrases are visited in their original order, none skipped: after
      `m` full cycles from the initial cursor the animation stands at the
      empty start of phrase PhraseAfter(|texts|, m). */
  lemma {:induction false} PhrasesInOrder(texts: seq<string>, m: nat)
    requires |texts| > 0 && NoEmptyPhrase(texts)
    ensures Run(texts, Origin, CyclesLength(texts, m)) == Cursor(PhraseAfter(|texts|, m), 0, false)
    decreases m
  {
    if m > 0 {
      var n := |texts|;
      PhrasesInOrder(texts, m - 1);
      CycleStep(texts, CyclesLength(texts, m - 1), PhraseAfter(n, m - 1), PhraseAfter(n, m));
    }
  }

  /** After `m` cycles the phrase index is m mod the number of phrases. */
  lemma {:induction false} PhraseAfterIsMod(n: nat, m: nat)
    requires n > 0
    ensures PhraseAfter(n, m) == m % n
    decreases m
  {
    if m > 0 {
      var t := PhraseAfter(n, m - 1);
      assert t == (m - 1) % n by {
        PhraseAfterIsMod(n, m - 1);
      }
      assert (t + 1) % n == m % n by {
        ModSucc(m - 1, n);
      }
    }
  }

  /** An empty phrase breaks the bound: the animation never leaves it and
      its character index grows without limit, past the phrase's length. */
  lemma {:induction false} EmptyPhraseRunsAway(texts: seq<string>, t: int, ch: nat, k: nat)
    requires 0 <= t < |texts| && texts[t] == []
    ensures Run(texts, Cursor(t, ch, false), k) == Cursor(t, ch + k, false)
    decreases k
  {
    if k > 0 {
      assert Next(texts, Cursor(t, ch, false)) == Cursor(t, ch + 1, false);
      EmptyPhraseRunsAway(texts, t, ch + 1, k - 1);
    }
  }

  /** With the page's own phrases the bound holds at every tick. */
  lemma SitePhrasesStayBounded(k: nat)
    ensures Bounded(SitePhrases, Run(SitePhrases, Origin, k))
  {
    assert NoEmptyPhrase(SitePhrases) by {
      forall i | 0 <= i < |SitePhrases| ensures SitePhrases[i] != [] {
        assert |SitePhrases[i]| > 0;
      }
    }
    RunKeepsBounded(SitePhrases, Origin, k);
  }

  class TypingAnimation {
    const hasElement: bool
    const texts: seq<string>
    const speeds: Speeds
    var currentTextIndex: int
    var currentCharIndex: int
    var isDeleting: bool
    /** The text content of the target element. */
    var textContent: string

    function Position(): Cursor
      reads this
    {
      Cursor(currentTextIndex, currentCharIndex, isDeleting)
    }

    constructor (hasElement: bool, texts: seq<string>, options: Overrides, textContent: string)
      ensures this.hasElement == hasElement && this.texts == texts
      ensures speeds == Configure(options)
      ensures Position() == Origin && this.textContent == textContent
    {
      this.hasElement := hasElement;
      this.texts := texts;
      speeds := Configure(options);
      currentTextIndex := 0;
      currentCharIndex := 0;
      isDeleting := false;
      this.textContent := textContent;
    }

    /** Starts the animation: without a target element nothing happens and
        no tick is scheduled. */
    method Start() returns (scheduled: Option<nat>)
      requires hasElement ==> InRange(texts, Position())
      modifies this
      ensures !hasElement ==> scheduled == None && Position() == old(Position()) && textContent == old(textContent)
      ensures hasElement ==> Position() == Next(texts, old(Position()))
      ensures hasElement ==> textContent == Shown(texts, old(Position()))
      ensures hasElement ==> scheduled == Some(Delay(texts, speeds, old(Position())))
    {
      if !hasElement {
        return None;
      }
      var delay := Tick();
      scheduled := Some(delay);
    }

    /** One tick: show one character more (or fewer), switch direction at
        either end of the phrase, and return the delay before the next tick. */
    method Tick() returns (delay: nat)
      requires hasElement && InRange(texts, Position())
      modifies this
      ensures Position() == Next(texts, old(Position()))
      ensures textContent == Shown(texts, old(Position()))
      ensures delay == Delay(texts, speeds, old(Position()))
    {
      var currentText := texts[currentTextIndex];
      if isDeleting {
        textContent := PrefixUpTo(currentText, currentCharIndex - 1);
        currentCharIndex := currentCharIndex - 1;
      } else {
        textContent := PrefixUpTo(currentText, currentCharIndex + 1);
        currentCharIndex := currentCharIndex + 1;
      }
      delay := if isDeleting then speeds.deleteSpeed else speeds.typeSpeed;
      if !isDeleting && currentCharIndex == |currentText| {
        delay := speeds.pauseTime;
        isDeleting := true;
      } else if isDeleting && currentCharIndex == 0 {
        isDeleting := false;
        currentTextIndex := (currentTextIndex + 1) % |texts|;
      }
    }
  }
}
