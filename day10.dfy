/** Day 10: bots that hold at most two microchips. The input gives chips to bots
    and tells each bot where its lower and higher chip go: to another bot or to an
    output bin. Whenever a bot holds two chips it hands them on. Part one names the
    bot that compares chips 17 and 61; part two multiplies the first chips that
    reach outputs 0, 1 and 2. Which ready bot acts next is not fixed (the source
    takes the first one its hash map yields), so the model lets any ready bot act
    and states the result in terms of the order in which the bots acted. */
module Day10 {
  import opened Wrappers
  import opened Strings
  import opened Lib

  datatype Destination = ToBot(id: nat) | ToOutput(id: nat)

  datatype Instruction =
    | Input(value: nat, bot: nat)
    | Push(bot: nat, low: Destination, high: Destination)

  /** The two chip slots of a bot */
  datatype Bot = Bot(one: Option<nat>, two: Option<nat>)

  /** `Bot::default()` */
  const Empty: Bot := Bot(None, None)

  // ---------------------------------------------------------------------------
  // Parsing

  /** `bot` or `output` followed by a number */
  function ParseDestination(kind: string, id: nat): (r: Option<Destination>)
    ensures r.Some? <==> kind == "bot" || kind == "output"
    ensures r.Some? ==> r.value.id == id && (r.value.ToBot? <==> kind == "bot")
  {
    if kind == "bot" then Some(ToBot(id))
    else if kind == "output" then Some(ToOutput(id))
    else None
  }

  /** The words of one line: `bot B gives low to T L and high to T H` or
      `value V goes to bot B`; `None` where the source panics */
  function ParseWords(words: seq<string>): (r: Option<Instruction>)
    ensures r.Some? && r.value.Push? ==>
              |words| == 12 && words[0] == "bot" && words[2] == "gives" && words[3] == "low" &&
              words[4] == "to" && words[7] == "and" && words[8] == "high" && words[9] == "to"
    ensures r.Some? && r.value.Input? ==>
              |words| == 6 && words[0] == "value" && words[2] == "goes" && words[3] == "to" && words[4] == "bot"
  {
    if |words| == 12 && words[0] == "bot" && words[2] == "gives" && words[3] == "low" && words[4] == "to"
       && words[7] == "and" && words[8] == "high" && words[9] == "to"
    then
      match (ParseNat(words[1]), ParseNat(words[6]), ParseNat(words[11]))
      case (Some(bot), Some(lowId), Some(highId)) =>
        (match (ParseDestination(words[5], lowId), ParseDestination(words[10], highId))
         case (Some(low), Some(high)) => Some(Push(bot, low, high))
         case _ => None)
      case _ => None
    else if |words| == 6 && words[0] == "value" && words[2] == "goes" && words[3] == "to" && words[4] == "bot" then
      match (ParseNat(words[1]), ParseNat(words[5]))
      case (Some(value), Some(bot)) => Some(Input(value, bot))
      case _ => None
    else None
  }

  /** One line, trimmed and split at single spaces */
  function ParseInstruction(line: string): Option<Instruction>
  {
    ParseWords(Split(Trim(line), ' '))
  }

  /** One instruction per line of the trimmed input; `None` where the source
      panics on an unrecognised line */
  function Generator(input: string): (r: Option<seq<Instruction>>)
    ensures var lines := Lines(Trim(input));
      (r.Some? <==> forall k :: 0 <= k < |lines| ==> ParseInstruction(lines[k]).Some?) &&
      (r.Some? ==> |r.value| == |lines| &&
                   forall k :: 0 <= k < |lines| ==> ParseInstruction(lines[k]) == Some(r.value[k]))
  {
    TraverseAt(Lines(Trim(input)), ParseInstruction);
    Traverse(Lines(Trim(input)), ParseInstruction)
  }

  function WrittenKind(d: Destination): string
  {
    match d
    case ToBot(_) => "bot"
    case ToOutput(_) => "output"
  }

  /** The words of an instruction as the puzzle writes them */
  function Written(i: Instruction): seq<string>
  {
    match i
    case Input(value, bot) => ["value", NatToString(value), "goes", "to", "bot", NatToString(bot)]
    case Push(bot, low, high) =>
      ["bot", NatToString(bot), "gives", "low", "to", WrittenKind(low), NatToString(low.id),
       "and", "high", "to", WrittenKind(high), NatToString(high.id)]
  }

  /** The instruction as the puzzle writes it */
  function Format(i: Instruction): string
  {
    Join(Written(i), " ")
  }

  // ---------------------------------------------------------------------------
  // Bots

  /** `add_value`: the first slot if it is free, otherwise the second, which may
      already hold a chip that is then lost */
  function AddValue(b: Bot, v: nat): (r: Bot)
    ensures r.one.Some? && r.two == (if b.one.None? then b.two else Some(v))
    ensures b.one.Some? ==> r.one == b.one
    ensures b.one.None? ==> r.one == Some(v)
  {
    if b.one.None? then Bot(Some(v), b.two) else Bot(b.one, Some(v))
  }

  /** `take_values`: the two chips, lower first; `None` where the source panics on
      an empty slot. Taking leaves the bot `Empty` */
  function TakeValues(b: Bot): (r: Option<(nat, nat)>)
    ensures r.Some? <==> b.one.Some? && b.two.Some?
    ensures r.Some? ==> r.value.0 <= r.value.1 &&
                        multiset{r.value.0, r.value.1} == multiset{b.one.value, b.two.value}
  {
    match (b.one, b.two)
    case (Some(one), Some(two)) => if one < two then Some((one, two)) else Some((two, one))
    case _ => None
  }

  /** The bots filled from empty by a list of chips */
  function Fill(values: seq<nat>): Bot
  {
    if |values| == 0 then Empty else AddValue(Fill(values[..|values| - 1]), values[|values| - 1])
  }

  /** A bot that has been given chips holds the first in its first slot and the
      latest in its second, when there are at least two */
  lemma {:induction false} FillHolds(values: seq<nat>)
    ensures |values| == 0 ==> Fill(values) == Empty
    ensures |values| == 1 ==> Fill(values) == Bot(Some(values[0]), None)
    ensures |values| >= 2 ==> Fill(values) == Bot(Some(values[0]), Some(values[|values| - 1]))
  {
    if |values| > 1 {
      FillHolds(values[..|values| - 1]);
    }
  }

  /** Two chips given to an empty bot are both held, and a third replaces the
      second */
  lemma AddTwiceThenThird(a: nat, b: nat, c: nat)
    ensures AddValue(AddValue(Empty, a), b) == Bot(Some(a), Some(b))
    ensures AddValue(Bot(Some(a), Some(b)), c) == Bot(Some(a), Some(c))
    ensures TakeValues(Bot(Some(a), Some(b))) == Some(if a < b then (a, b) else (b, a))
  {
  }

  // ---------------------------------------------------------------------------
  // The factory

  /** The bots, the output bins and the routing table of `run` */
  datatype State = State(bots: map<nat, Bot>, outputs: map<nat, seq<nat>>,
                         directions: map<nat, (Destination, Destination)>)

  const Start: State := State(map[], map[], map[])

  /** `entry(id).or_insert_with(Bot::default)` */
  function BotAt(s: State, id: nat): Bot
  {
    if id in s.bots then s.bots[id] else Empty
  }

  /** `entry(id).or_insert_with(Vec::new)` */
  function OutputAt(s: State, id: nat): seq<nat>
  {
    if id in s.outputs then s.outputs[id] else []
  }

  /** A chip handed to a destination */
  function Give(s: State, d: Destination, v: nat): State
  {
    match d
    case ToBot(id) => s.(bots := s.bots[id := AddValue(BotAt(s, id), v)])
    case ToOutput(id) => s.(outputs := s.outputs[id := OutputAt(s, id) + [v]])
  }

  /** The setup loop for one instruction: an input chip goes to its bot, a routing
      rule replaces any earlier one for the same bot */
  function LoadOne(s: State, i: Instruction): State
  {
    match i
    case Input(value, bot) => Give(s, ToBot(bot), value)
    case Push(bot, low, high) => s.(directions := s.directions[bot := (low, high)])
  }

  /** The state after the setup loop over the first instructions */
  function Setup(input: seq<Instruction>): State
  {
    if |input| == 0 then Start else LoadOne(Setup(input[..|input| - 1]), input[|input| - 1])
  }

  /** The bot holds two chips */
  predicate Ready(s: State, id: nat) {
    id in s.bots && s.bots[id].one.Some? && s.bots[id].two.Some?
  }

  /** Outputs 0, 1 and 2 each hold a chip */
  predicate ThreeFilled(s: State) {
    0 in s.outputs && 1 in s.outputs && 2 in s.outputs &&
    |s.outputs[0]| > 0 && |s.outputs[1]| > 0 && |s.outputs[2]| > 0
  }

  /** The product of the first chips in outputs 0, 1 and 2 */
  function FirstProduct(s: State): nat
    requires ThreeFilled(s)
  {
    s.outputs[0][0] * s.outputs[1][0] * s.outputs[2][0]
  }

  /** How one pass of the main loop ends */
  datatype Turn = Continue(next: State) | Done(answer: nat) | Panic

  /** One pass of the main loop with the ready bot `id`: it takes its chips; in
      part one it is the answer if they are 17 and 61; otherwise it hands the
      lower chip to its low destination and then the higher to its high one (a bot
      without a rule panics); in part two the loop ends once outputs 0, 1 and 2
      hold chips, with the product of their first chips */
  function Round(s: State, id: nat, part: Part): Turn
    requires Ready(s, id)
  {
    var chips := TakeValues(s.bots[id]).value;
    var low, high := chips.0, chips.1;
    if part == One && low == 17 && high == 61 then Done(id)
    else if id !in s.directions then Panic
    else
      var t := Delivered(s, id);
      if part == Two && ThreeFilled(t) then Done(FirstProduct(t))
      else Continue(t)
  }

  /** The state after the ready bot `id` handed its lower chip to its low
      destination and then its higher chip to its high one */
  function Delivered(s: State, id: nat): State
    requires Ready(s, id) && id in s.directions
  {
    var chips := TakeValues(s.bots[id]).value;
    var rule := s.directions[id];
    Give(Give(s.(bots := s.bots[id := Empty]), rule.0, chips.0), rule.1, chips.1)
  }

  /** The passes of the main loop when the bots act in the given order; `None` when
      a bot in the order is not ready at its turn, or comes after the end */
  function Play(s: State, order: seq<nat>, part: Part): Option<Turn>
  {
    if |order| == 0 then Some(Continue(s))
    else
      match Play(s, order[..|order| - 1], part)
      case Some(Continue(t)) =>
        var id := order[|order| - 1];
        if Ready(t, id) then Some(Round(t, id, part)) else None
      case _ => None
  }

  lemma PlaySnoc(s: State, order: seq<nat>, id: nat, part: Part, t: State)
    requires Play(s, order, part) == Some(Continue(t)) && Ready(t, id)
    ensures Play(s, order + [id], part) == Some(Round(t, id, part))
  {
    assert (order + [id])[..|order|] == order;
  }

  /** How `run` ends: with an answer, with a panic, or still running when the fuel
      is spent */
  datatype Outcome = Answer(value: nat) | Failed | Unfinished

  /** The main loop's state holds no bot with two chips: `run`'s `expect` fails */
  predicate Stuck(s: State) {
    forall id :: id in s.bots ==> !Ready(s, id)
  }

  // ---------------------------------------------------------------------------
  // `run`

  /** The setup loop of `run`: every instruction in order */
  method Load(input: seq<Instruction>)
    returns (bots: map<nat, Bot>, outputs: map<nat, seq<nat>>, directions: map<nat, (Destination, Destination)>)
    ensures State(bots, outputs, directions) == Setup(input)
  {
    bots, outputs, directions := map[], map[], map[];
    for k := 0 to |input|
      invariant State(bots, outputs, directions) == Setup(input[..k])
    {
      assert input[..k + 1][..k] == input[..k];
      match input[k] {
        case Input(value, id) =>
          var bot := if id in bots then bots[id] else Empty;
          bots := bots[id := AddValue(bot, value)];
        case Push(id, low, high) =>
          directions := directions[id := (low, high)];
      }
    }
    assert input[..|input|] == input;
  }

  /** A chip handed on with `entry(..).or_insert_with(..)` */
  method Deliver(bots: map<nat, Bot>, outputs: map<nat, seq<nat>>, directions: map<nat, (Destination, Destination)>,
                 d: Destination, v: nat)
    returns (bots': map<nat, Bot>, outputs': map<nat, seq<nat>>)
    ensures State(bots', outputs', directions) == Give(State(bots, outputs, directions), d, v)
  {
    bots', outputs' := bots, outputs;
    match d {
      case ToBot(b) =>
        var bot := if b in bots then bots[b] else Empty;
        bots' := bots[b := AddValue(bot, v)];
      case ToOutput(o) =>
        var bin := if o in outputs then outputs[o] else [];
        outputs' := outputs[o := bin + [v]];
    }
  }

  /** One pass of the main loop of `run` with the ready bot `id`, after the bots
      in `order` acted */
  method Pass(ghost start: State, ghost order: seq<nat>,
              bots: map<nat, Bot>, outputs: map<nat, seq<nat>>, directions: map<nat, (Destination, Destination)>,
              id: nat, part: Part)
    returns (turn: Turn)
    requires Play(start, order, part) == Some(Continue(State(bots, outputs, directions)))
    requires Ready(State(bots, outputs, directions), id)
    ensures turn.Continue? ==> turn.next.directions == directions
    ensures Play(start, order + [id], part) == Some(turn)
  {
    turn := Act(bots, outputs, directions, id, part);
    PlaySnoc(start, order, id, part, State(bots, outputs, directions));
  }

  /** The body of the main loop of `run` for the ready bot `id` */
  method Act(bots: map<nat, Bot>, outputs: map<nat, seq<nat>>, directions: map<nat, (Destination, Destination)>,
             id: nat, part: Part)
    returns (turn: Turn)
    requires Ready(State(bots, outputs, directions), id)
    ensures turn == Round(State(bots, outputs, directions), id, part)
  {
    var chips := TakeValues(bots[id]).value;
    var low, high := chips.0, chips.1;
    var emptied := bots[id := Empty];
    if part == One && low == 17 && high == 61 {
      return Done(id);
    }
    if id !in directions {
      return Panic;
    }
    var rule := directions[id];
    var bots1, outputs1 := Deliver(emptied, outputs, directions, rule.0, low);
    var bots2, outputs2 := Deliver(bots1, outputs1, directions, rule.1, high);
    if part == Two && 0 in outputs2 && 1 in outputs2 && 2 in outputs2 {
      if |outputs2[0]| > 0 && |outputs2[1]| > 0 && |outputs2[2]| > 0 {
        return Done(outputs2[0][0] * outputs2[1][0] * outputs2[2][0]);
      }
    }
    return Continue(State(bots2, outputs2, directions));
  }

  /** `run`: the setup loop, then at most `fuel` passes of the main loop. The
      answer, or the panic, is what the main loop gives when the bots act in the
      order returned in `order`, each of them ready at its turn */
  method Run(input: seq<Instruction>, part: Part, fuel: nat) returns (r: Outcome, ghost order: seq<nat>)
    ensures Reports(Setup(input), order, part, fuel, r)
  {
    var bots, outputs, directions := Load(input);
    r, order := MainLoop(bots, outputs, directions, part, fuel);
  }

  /** What `run` reports after the bots acted in the given order from the state
      after setup: an answer or a panic where the main loop gives one, and
      `Unfinished` only once the fuel is spent */
  ghost predicate Reports(start: State, order: seq<nat>, part: Part, fuel: nat, r: Outcome) {
    var play := Play(start, order, part);
    play.Some? &&
    match r
    case Answer(value) => play.value == Done(value)
    case Failed => play.value == Panic || (play.value.Continue? && Stuck(play.value.next))
    case Unfinished => |order| == fuel && play.value.Continue?
  }

  /** The main loop of `run`: a ready bot acts, as long as there is one */
  method MainLoop(bots: map<nat, Bot>, outputs: map<nat, seq<nat>>, directions: map<nat, (Destination, Destination)>,
                  part: Part, fuel: nat)
    returns (r: Outcome, ghost order: seq<nat>)
    ensures Reports(State(bots, outputs, directions), order, part, fuel, r)
  {
    ghost var start := State(bots, outputs, directions);
    var bots, outputs := bots, outputs;
    order := [];
    var steps := 0;
    while steps < fuel
      invariant steps == |order| <= fuel
      invariant Play(start, order, part) == Some(Continue(State(bots, outputs, directions)))
    {
      if !exists id :: id in bots && bots[id].one.Some? && bots[id].two.Some? {
        assert Stuck(State(bots, outputs, directions));
        return Failed, order;
      }
      var id :| id in bots && bots[id].one.Some? && bots[id].two.Some?;
      var turn := Pass(start, order, bots, outputs, directions, id, part);
      order := order + [id];
      match turn {
        case Done(answer) => return Answer(answer), order;
        case Panic => return Failed, order;
        case Continue(next) => bots, outputs := next.bots, next.outputs;
      }
      steps := steps + 1;
    }
    return Unfinished, order;
  }

  /** Part one: the bot that compares chips 17 and 61 */
  method Part1(input: seq<Instruction>, fuel: nat) returns (r: Outcome, ghost order: seq<nat>)
    ensures Reports(Setup(input), order, One, fuel, r)
  {
    r, order := Run(input, One, fuel);
  }

  /** Part two: the product of the first chips in outputs 0, 1 and 2 */
  method Part2(input: seq<Instruction>, fuel: nat) returns (r: Outcome, ghost order: seq<nat>)
    ensures Reports(Setup(input), order, Two, fuel, r)
  {
    r, order := Run(input, Two, fuel);
  }

  // ---------------------------------------------------------------------------
  // Setup

  /** The chips the input instructions give to bot `id`, in order */
  function ChipsFor(input: seq<Instruction>, id: nat): seq<nat>
  {
    if |input| == 0 then []
    else
      var last := input[|input| - 1];
      ChipsFor(input[..|input| - 1], id) + (if last.Input? && last.bot == id then [last.value] else [])
  }

  /** After setup every bot holds what its chips give when added to an empty bot
      one after the other, a bot is present exactly when it was given a chip, and
      no output holds anything */
  lemma {:induction false} SetupBots(input: seq<Instruction>, id: nat)
    ensures BotAt(Setup(input), id) == Fill(ChipsFor(input, id))
    ensures id in Setup(input).bots <==> |ChipsFor(input, id)| > 0
    ensures Setup(input).outputs == map[]
  {
    if |input| > 0 {
      var init, last := input[..|input| - 1], input[|input| - 1];
      SetupBots(init, id);
      if last.Input? && last.bot == id {
        assert ChipsFor(input, id) == ChipsFor(init, id) + [last.value];
        assert ChipsFor(input, id)[..|ChipsFor(input, id)| - 1] == ChipsFor(init, id);
      } else {
        assert ChipsFor(input, id) == ChipsFor(init, id);
      }
    }
  }

  /** A bot has a routing rule after setup exactly when some instruction gives it
      one */
  lemma {:induction false} SetupHasRule(input: seq<Instruction>, id: nat)
    ensures id in Setup(input).directions <==>
              exists k :: 0 <= k < |input| && input[k].Push? && input[k].bot == id
  {
    if |input| > 0 {
      var init := input[..|input| - 1];
      SetupHasRule(init, id);
      if exists k :: 0 <= k < |init| && init[k].Push? && init[k].bot == id {
        var k :| 0 <= k < |init| && init[k].Push? && init[k].bot == id;
        assert input[k] == init[k];
      }
      if exists k :: 0 <= k < |input| && input[k].Push? && input[k].bot == id {
        var k :| 0 <= k < |input| && input[k].Push? && input[k].bot == id;
        if k < |init| {
          assert init[k] == input[k];
        }
      }
    }
  }

  /** The rule a bot follows is the one of the last instruction that routes it */
  lemma {:induction false} SetupLastRule(input: seq<Instruction>, id: nat, k: nat)
    requires k < |input| && input[k].Push? && input[k].bot == id
    requires forall j :: k < j < |input| ==> !(input[j].Push? && input[j].bot == id)
    ensures id in Setup(input).directions && Setup(input).directions[id] == (input[k].low, input[k].high)
  {
    var init := input[..|input| - 1];
    if k < |input| - 1 {
      forall j | k < j < |init|
        ensures !(init[j].Push? && init[j].bot == id)
      {
        assert init[j] == input[j];
      }
      assert init[k] == input[k];
      SetupLastRule(init, id, k);
    }
  }

  // ---------------------------------------------------------------------------
  // One pass of the main loop

  /** In part one the pass ends with the bot's id exactly when it compares 17 and
      61 */
  lemma RoundOneAnswer(s: State, id: nat)
    requires Ready(s, id)
    ensures Round(s, id, One).Done? <==> TakeValues(s.bots[id]) == Some((17, 61))
    ensures Round(s, id, One).Done? ==> Round(s, id, One).answer == id
  {
  }

  /** A pass panics exactly when the bot has no rule and is not the answer of part
      one */
  lemma RoundPanics(s: State, id: nat, part: Part)
    requires Ready(s, id)
    ensures Round(s, id, part) == Panic <==>
              id !in s.directions && !(part == One && TakeValues(s.bots[id]) == Some((17, 61)))
  {
  }

  /** In part two the pass ends once outputs 0, 1 and 2 hold a chip, with the
      product of their first chips, and carries on otherwise */
  lemma RoundTwoAnswer(s: State, id: nat)
    requires Ready(s, id) && id in s.directions
    ensures var t := Delivered(s, id);
            (Round(s, id, Two).Done? <==> ThreeFilled(t)) &&
            (ThreeFilled(t) ==> Round(s, id, Two).answer == FirstProduct(t)) &&
            (!ThreeFilled(t) ==> Round(s, id, Two) == Continue(t))
  {
  }

  /** Handing on the chips: the high chip lands at the high destination, the low
      chip at the low one unless both go to the same bot (then the high chip may
      replace it), the routing table is kept, bots that are neither the acting bot
      nor a destination keep their chips, and every output bin only grows */
  lemma DeliveredRoutes(s: State, id: nat)
    requires Ready(s, id) && id in s.directions
    ensures var t, chips, rule := Delivered(s, id), TakeValues(s.bots[id]).value, s.directions[id];
            t.directions == s.directions &&
            (rule.1.ToBot? ==> rule.1.id in t.bots && Some(chips.1) in {t.bots[rule.1.id].one, t.bots[rule.1.id].two}) &&
            (rule.1.ToOutput? ==> Last(t, rule.1.id) == Some(chips.1)) &&
            (rule.0.ToBot? && rule.1 != rule.0 ==>
               rule.0.id in t.bots && Some(chips.0) in {t.bots[rule.0.id].one, t.bots[rule.0.id].two}) &&
            (rule.0.ToOutput? && rule.1 != rule.0 ==> Last(t, rule.0.id) == Some(chips.0)) &&
            (rule.0.ToOutput? && rule.1 == rule.0 ==>
               var bin := t.outputs[rule.0.id]; |bin| >= 2 && bin[|bin| - 2] == chips.0)
    ensures var t, rule := Delivered(s, id), s.directions[id];
            forall b :: b in s.bots && b != id && rule.0 != ToBot(b) && rule.1 != ToBot(b) ==>
              b in t.bots && t.bots[b] == s.bots[b]
    ensures forall o :: o in s.outputs ==> o in Delivered(s, id).outputs && s.outputs[o] <= Delivered(s, id).outputs[o]
  {
  }

  /** The last chip in an output bin, if any */
  function Last(s: State, o: nat): Option<nat>
  {
    if o in s.outputs && |s.outputs[o]| > 0 then Some(s.outputs[o][|s.outputs[o]| - 1]) else None
  }

  // ---------------------------------------------------------------------------
  // The main loop

  /** While the main loop runs the routing table stays as set up and the output
      bins only grow */
  lemma {:induction false} PlayKeeps(s: State, order: seq<nat>, part: Part, t: State)
    requires Play(s, order, part) == Some(Continue(t))
    ensures t.directions == s.directions
    ensures forall o :: o in s.outputs ==> o in t.outputs && s.outputs[o] <= t.outputs[o]
  {
    if |order| > 0 {
      var init, id := order[..|order| - 1], order[|order| - 1];
      match Play(s, init, part)
      case Some(Continue(u)) =>
        PlayKeeps(s, init, part, u);
        DeliveredRoutes(u, id);
      case _ =>
    }
  }

  /** A bot that acts after the earlier bots left the state `t` ends the main
      loop with an answer only when it is ready and its pass gives that answer */
  lemma PlayEnded(s: State, order: seq<nat>, id: nat, part: Part, t: State, answer: nat)
    requires Play(s, order, part) == Some(Continue(t))
    requires Play(s, order + [id], part) == Some(Done(answer))
    ensures Ready(t, id) && Round(t, id, part) == Done(answer)
  {
    assert (order + [id])[..|order|] == order;
  }

  /** An answer of part one is the last bot to act, which then held 17 and 61 */
  lemma PlayOneAnswer(s: State, order: seq<nat>, id: nat, t: State, answer: nat)
    requires Play(s, order, One) == Some(Continue(t))
    requires Play(s, order + [id], One) == Some(Done(answer))
    ensures answer == id && Ready(t, id) && TakeValues(t.bots[id]) == Some((17, 61))
  {
    PlayEnded(s, order, id, One, t, answer);
    RoundOneAnswer(t, id);
  }

  /** An answer of part two is the product of the first chips in outputs 0, 1 and
      2, the first time all three hold one */
  lemma PlayTwoAnswer(s: State, order: seq<nat>, id: nat, t: State, answer: nat)
    requires Play(s, order, Two) == Some(Continue(t))
    requires Play(s, order + [id], Two) == Some(Done(answer))
    ensures Ready(t, id) && id in t.directions
    ensures var u := Delivered(t, id);
            ThreeFilled(u) && answer == FirstProduct(u)
    ensures |order| > 0 ==> !ThreeFilled(t)
  {
    PlayEnded(s, order, id, Two, t, answer);
    RoundPanics(t, id, Two);
    RoundTwoAnswer(t, id);
    if |order| > 0 {
      var init, last := order[..|order| - 1], order[|order| - 1];
      var u := Play(s, init, Two).value.next;
      RoundPanics(u, last, Two);
      RoundTwoAnswer(u, last);
    }
  }

  // ---------------------------------------------------------------------------
  // Reading the written form back

  /** A word: non-empty, without spaces and line feeds */
  predicate Plain(w: string) {
    |w| > 0 && forall j :: 0 <= j < |w| ==> w[j] != ' ' && w[j] != '\n'
  }

  /** The words of an instruction are non-empty and free of spaces and line feeds */
  lemma WordsShape(i: Instruction)
    ensures |Written(i)| >= 1 && forall k :: 0 <= k < |Written(i)| ==> Plain(Written(i)[k])
    ensures Written(i)[0][0] in "bv"
    ensures var last := Written(i)[|Written(i)| - 1]; IsDigit(last[|last| - 1])
  {
    match i
    case Input(value, bot) =>
      NumberShape(value);
      NumberShape(bot);
    case Push(bot, low, high) =>
      NumberShape(bot);
      NumberShape(low.id);
      NumberShape(high.id);
      assert Plain(WrittenKind(low)) && Plain(WrittenKind(high));
  }

  /** A written number is a word that ends with a digit */
  lemma NumberShape(n: nat)
    ensures Plain(NatToString(n)) && IsDigit(NatToString(n)[|NatToString(n)| - 1])
  {
  }

  /** The written form starts with a letter, ends with a digit and has no line feed */
  lemma FormatShape(i: Instruction)
    ensures |Format(i)| > 0 && Format(i)[0] in "bv" && IsDigit(Format(i)[|Format(i)| - 1])
    ensures forall j :: 0 <= j < |Format(i)| ==> Format(i)[j] != '\n'
  {
    WordsShape(i);
    JoinEnds(Written(i), " ");
    JoinAvoids(Written(i), " ", '\n');
  }

  /** Reading the words of an instruction gives the instruction back */
  lemma ParseWordsOf(i: Instruction)
    ensures ParseWords(Written(i)) == Some(i)
  {
    match i
    case Input(value, bot) => ParseInputWords(value, bot);
    case Push(bot, low, high) => ParsePushWords(bot, low, high);
  }

  lemma ParseInputWords(value: nat, bot: nat)
    ensures ParseWords(Written(Input(value, bot))) == Some(Input(value, bot))
  {
    ParseNatToString(value);
    ParseNatToString(bot);
  }

  lemma ParsePushWords(bot: nat, low: Destination, high: Destination)
    ensures ParseWords(Written(Push(bot, low, high))) == Some(Push(bot, low, high))
  {
    ParseNatToString(bot);
    ParseNatToString(low.id);
    ParseNatToString(high.id);
    assert ParseDestination(WrittenKind(low), low.id) == Some(low);
    assert ParseDestination(WrittenKind(high), high.id) == Some(high);
  }

  /** Parsing the written form of an instruction gives the instruction back */
  lemma ParseFormat(i: Instruction)
    ensures ParseInstruction(Format(i)) == Some(i)
  {
    FormatShape(i);
    TrimUnchanged(Format(i));
    WordsShape(i);
    SplitJoin(Written(i), ' ');
    ParseWordsOf(i);
  }

  /** A one-line input holding the written form of an instruction parses to that
      instruction alone */
  lemma GeneratorFormat(i: Instruction)
    ensures Generator(Format(i)) == Some([i])
  {
    var line := Format(i);
    FormatShape(i);
    TrimUnchanged(line);
    SingleLine(line);
    ParseFormat(i);
    var lines := Lines(Trim(line));
    assert lines == [line];
    var r := Generator(line);
    assert r.Some? && |r.value| == 1;
    assert ParseInstruction(lines[0]) == Some(r.value[0]);
    assert r.value == [i];
  }

  lemma WrittenLowBotExample()
    ensures Written(Push(123, ToBot(191), ToOutput(162))) ==
            ["bot", "123", "gives", "low", "to", "bot", "191", "and", "high", "to", "output", "162"]
  {
    assert NatToString(123) == "123" && NatToString(191) == "191" && NatToString(162) == "162";
  }

  lemma WrittenLowOutputExample()
    ensures Written(Push(123, ToOutput(165), ToBot(99))) ==
            ["bot", "123", "gives", "low", "to", "output", "165", "and", "high", "to", "bot", "99"]
  {
    assert NatToString(123) == "123" && NatToString(165) == "165" && NatToString(99) == "99";
  }

  lemma WrittenInputExample()
    ensures Written(Input(5, 189)) == ["value", "5", "goes", "to", "bot", "189"]
  {
    assert NatToString(5) == "5" && NatToString(189) == "189";
  }

  /** The three lines of the generator's regression test, each given as its words
      joined with single spaces */
  lemma GeneratorExamples()
    ensures Generator(Join(["bot", "123", "gives", "low", "to", "bot", "191", "and", "high", "to", "output", "162"], " ")) ==
            Some([Push(123, ToBot(191), ToOutput(162))])
    ensures Generator(Join(["bot", "123", "gives", "low", "to", "output", "165", "and", "high", "to", "bot", "99"], " ")) ==
            Some([Push(123, ToOutput(165), ToBot(99))])
    ensures Generator(Join(["value", "5", "goes", "to", "bot", "189"], " ")) == Some([Input(5, 189)])
  {
    WrittenLowBotExample();
    GeneratorFormat(Push(123, ToBot(191), ToOutput(162)));
    WrittenLowOutputExample();
    GeneratorFormat(Push(123, ToOutput(165), ToBot(99)));
    WrittenInputExample();
    GeneratorFormat(Input(5, 189));
  }
}
