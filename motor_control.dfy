/** The motor panel `MotorControl` (src/components/MotorControl.js): a
    constant table from motor and action to the command string sent to the
    arm, three buttons per motor, and `handleCommand`, which hands what a
    button produced to the screen's `onCommand` handler. */
module MotorControl {
  import opened BleTypes

  /** The three buttons' actions: ▲, ↻ and ▼. */
  datatype Action = Up | Rotate | Down

  /** The action name a button passes to `handleCommand`, which is also the
      key of its command in the table. */
  function ActionName(a: Action): string {
    match a
    case Up => "up"
    case Rotate => "rotate"
    case Down => "down"
  }

  /** Reads an action name back; anything else names no button. */
  function ParseAction(name: string): (r: Option<Action>)
    ensures r.Some? ==> ActionName(r.value) == name
  {
    if name == "up" then Some(Up)
    else if name == "rotate" then Some(Rotate)
    else if name == "down" then Some(Down)
    else None
  }

  /** One motor's row of `motorCommands`. */
  datatype CommandSet = CommandSet(up: string, rotate: string, down: string)

  /** `motorCommands`. */
  const MotorCommands: map<string, CommandSet> :=
    map["A" := CommandSet("A1", "A2", "A3"), "B" := CommandSet("B1", "B2", "B3")]

  /** The properties every object literal inherits from `Object.prototype`.
      `motorCommands[name]` finds one of these for such a name: a function,
      or for `__proto__` the prototype itself. Neither has an `up`,
      `rotate` or `down` property. */
  const InheritedNames: set<string> := {
    "constructor", "hasOwnProperty", "isPrototypeOf", "propertyIsEnumerable",
    "toString", "toLocaleString", "valueOf", "__proto__",
    "__defineGetter__", "__defineSetter__", "__lookupGetter__", "__lookupSetter__"
  }

  /** `commands.up`, `commands.rotate` or `commands.down`. */
  function CommandOf(commands: CommandSet, a: Action): (r: string)
    ensures forall m :: m in MotorCommands && MotorCommands[m] == commands ==> r == m + [ActionDigit(a)]
  {
    match a
    case Up => commands.up
    case Rotate => commands.rotate
    case Down => commands.down
  }

  /** The digit that follows the motor letter in each command. */
  function ActionDigit(a: Action): char {
    match a
    case Up => '1'
    case Rotate => '2'
    case Down => '3'
  }

  /** What `onCommand` receives; `command` is `None` when it is `undefined`. */
  datatype CommandEvent = CommandEvent(motorName: string, action: string, command: Option<string>)

  /** `handleCommand`: the three arguments go to `onCommand` unchanged when
      the screen has one; otherwise nothing is forwarded. */
  function HandleCommand(motorName: string, action: string, command: Option<string>, hasOnCommand: bool): (r: Option<CommandEvent>)
    ensures r.Some? <==> hasOnCommand
    ensures r.Some? ==>
      r.value.motorName == motorName && r.value.action == action && r.value.command == command
  {
    if hasOnCommand then Some(CommandEvent(motorName, action, command)) else None
  }

  /** What pressing a button does. For a motor name that is neither in the
      table nor inherited, `commands` is undefined and reading its field
      throws before `handleCommand` runs. */
  datatype PressOutcome = Forwarded(event: CommandEvent) | NotForwarded | NoCommands

  /** `commands[action]` for the value `motorCommands[motorName]` finds:
      the table entry, `undefined` on an inherited property, or a throw
      (`None`) when there is no value at all. */
  function LookUp(motorName: string, a: Action): (r: Option<Option<string>>)
    ensures r.None? <==> motorName !in MotorCommands && motorName !in InheritedNames
    ensures r == Some(None) <==> motorName in InheritedNames
    ensures motorName in MotorCommands ==> r == Some(Some(motorName + [ActionDigit(a)]))
  {
    if motorName in MotorCommands then Some(Some(CommandOf(MotorCommands[motorName], a)))
    else if motorName in InheritedNames then Some(None)
    else None
  }

  /** The `onPress` of the button for action `a` on panel `motorName`. */
  function PressButton(motorName: string, a: Action, hasOnCommand: bool): (r: PressOutcome)
    ensures r == NoCommands <==> motorName !in MotorCommands && motorName !in InheritedNames
    ensures r.Forwarded? <==> (motorName in MotorCommands || motorName in InheritedNames) && hasOnCommand
    ensures r.Forwarded? ==>
      && r.event.motorName == motorName
      && ParseAction(r.event.action) == Some(a)
    ensures r.Forwarded? && motorName in MotorCommands ==>
      r.event.command == Some(CommandOf(MotorCommands[motorName], a))
    ensures r.Forwarded? && motorName in InheritedNames ==> r.event.command == None
  {
    match LookUp(motorName, a)
    case None => NoCommands
    case Some(command) =>
      match HandleCommand(motorName, ActionName(a), command, hasOnCommand)
      case Some(e) => Forwarded(e)
      case None => NotForwarded
  }

  /** Every command is its motor's letter followed by the action's digit:
      "A1", "A2", "A3" for motor A and "B1", "B2", "B3" for motor B. */
  lemma CommandSpelling(m: string, a: Action)
    requires m in MotorCommands
    ensures CommandOf(MotorCommands[m], a) == m + [ActionDigit(a)]
    ensures |m| == 1 && CommandOf(MotorCommands[m], a)[0] == m[0]
  {
  }

  /** The six commands are pairwise distinct: a command names its motor
      and its action. */
  lemma CommandsDistinct(m1: string, a1: Action, m2: string, a2: Action)
    requires m1 in MotorCommands && m2 in MotorCommands
    requires CommandOf(MotorCommands[m1], a1) == CommandOf(MotorCommands[m2], a2)
    ensures m1 == m2 && a1 == a2
  {
  }

  /** Each button's action name reads back as that button's action, so the
      forwarded command is the table entry for the forwarded action name. */
  lemma ButtonActionKeysItsCommand(motorName: string, a: Action)
    requires motorName in MotorCommands
    ensures PressButton(motorName, a, true).Forwarded?
    ensures var e := PressButton(motorName, a, true).event;
      e.command == Some(CommandOf(MotorCommands[motorName], ParseAction(e.action).value))
      && e.command == Some(motorName + [ActionDigit(a)])
  {
    CommandSpelling(motorName, a);
  }

  /** A panel named after an inherited property, such as `constructor`,
      does not throw: it forwards the action with an `undefined` command. */
  lemma InheritedNameForwardsUndefined(motorName: string, a: Action)
    requires motorName in InheritedNames
    ensures PressButton(motorName, a, true) == Forwarded(CommandEvent(motorName, ActionName(a), None))
  {
  }
}
