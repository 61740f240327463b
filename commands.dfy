/** NVDA commands: a desktop and a laptop set of key combinations plus an optional name,
    and the human-readable description built from them. */
module Commands {
  import opened Wrappers
  import opened Text
  import opened Keys

  /** The key lists of a list of combinations, in order. */
  function KeysOf(cs: seq<KeyCombination>): (r: seq<seq<Key>>)
    reads cs
    ensures |r| == |cs|
    ensures forall i | 0 <= i < |cs| :: r[i] == cs[i].keys
  {
    seq(|cs|, i requires 0 <= i < |cs| reads cs => cs[i].keys)
  }

  /** What an INvdaCommand exposes, as a value: either set may be null (None) for a command
      that is not an NvdaCommand; so may the name. */
  datatype CommandView = CommandView(
    desktop: Option<seq<seq<Key>>>, laptop: Option<seq<seq<Key>>>, name: Option<string>)

  class NvdaCommand {
    var desktopSet: seq<KeyCombination>
    var laptopSet: seq<KeyCombination>
    var name: Option<string>

    /** NvdaCommand(desktopCombination, name): no laptop combination, so both sets hold
        the one desktop combination. */
    constructor Named(desktop: KeyCombination, name: string)
      ensures desktopSet == [desktop] && laptopSet == [desktop]
      ensures this.name == Some(name)
    {
      desktopSet := [];
      laptopSet := [];
      desktopSet := desktopSet + [desktop];
      laptopSet := laptopSet + [desktop];
      this.name := Some(name);
    }

    /** NvdaCommand(desktopCombination, laptopCombination = null, name = null): the laptop
        set holds the laptop combination when one is given, the desktop one otherwise. */
    constructor (desktop: KeyCombination, laptop: Option<KeyCombination>, name: Option<string>)
      ensures desktopSet == [desktop]
      ensures laptop.Some? ==> laptopSet == [laptop.value]
      ensures laptop.None? ==> laptopSet == [desktop]
      ensures this.name == name
    {
      desktopSet := [];
      laptopSet := [];
      desktopSet := desktopSet + [desktop];
      if laptop.Some? {
        laptopSet := laptopSet + [laptop.value];
      } else {
        laptopSet := laptopSet + [desktop];
      }
      this.name := name;
    }

    /** NvdaCommand(desktopCombinationSet, laptopCombinationSet = null): copies the lists
        in order, the laptop set falling back to the desktop list; the name stays null. */
    constructor FromSets(desktop: seq<KeyCombination>, laptop: Option<seq<KeyCombination>>)
      ensures desktopSet == desktop
      ensures laptop.Some? ==> laptopSet == laptop.value
      ensures laptop.None? ==> laptopSet == desktop
      ensures name == None
    {
      desktopSet := [];
      laptopSet := [];
      desktopSet := desktopSet + desktop;
      if laptop.Some? {
        laptopSet := laptopSet + laptop.value;
      } else {
        laptopSet := laptopSet + desktop;
      }
      name := None;
    }

    /** The Name setter. */
    method SetName(n: Option<string>)
      modifies this
      ensures name == n
      ensures desktopSet == old(desktopSet) && laptopSet == old(laptopSet)
    {
      name := n;
    }

    /** The command as its interface shows it; an NvdaCommand never has a null set. */
    function View(): (v: CommandView)
      reads this, desktopSet, laptopSet
      ensures v.desktop.Some? && v.laptop.Some?
      ensures v.desktop.value == KeysOf(desktopSet) && v.laptop.value == KeysOf(laptopSet)
      ensures v.name == name
    {
      CommandView(Some(KeysOf(desktopSet)), Some(KeysOf(laptopSet)), name)
    }
  }

  /** BasicCommands.QuitNvda: Nvda+Q, named "QuitNvda". */
  method MakeQuitNvda() returns (c: NvdaCommand)
    ensures fresh(c) && |c.desktopSet| == 1 && c.laptopSet == c.desktopSet
    ensures c.desktopSet[0].keys == [Nvda, Q] && c.name == Some("QuitNvda")
    ensures c.View() == QuitNvda
  {
    var combination := new KeyCombination();
    combination.Add(Nvda);
    combination.Add(Q);
    c := new NvdaCommand.Named(combination, "QuitNvda");
    assert c.desktopSet[0].keys == [Nvda, Q];
    assert KeysOf(c.desktopSet) == [c.desktopSet[0].keys];
  }

  /** The view of BasicCommands.QuitNvda. */
  const QuitNvda: CommandView := CommandView(Some([[Nvda, Q]]), Some([[Nvda, Q]]), Some("QuitNvda"))

  // ----------------------------------------------------------- descriptions

  /** One combination as "(desc)". */
  function Parenthesized(ks: seq<Key>): string {
    "(" + Description(ks) + ")"
  }

  /** GetCombinationDesc: the parenthesized descriptions joined with ", ". */
  function CombinationDesc(cs: seq<seq<Key>>): string {
    Join(", ", seq(|cs|, i requires 0 <= i < |cs| => Parenthesized(cs[i])))
  }

  /** One more combination adds ", (desc)" at the end of a non-empty list. */
  lemma CombinationDescAppend(cs: seq<seq<Key>>, c: seq<Key>)
    requires |cs| >= 1
    ensures CombinationDesc(cs + [c]) == CombinationDesc(cs) + ", " + Parenthesized(c)
  {
    var parts := seq(|cs|, i requires 0 <= i < |cs| => Parenthesized(cs[i]));
    assert seq(|cs + [c]|, i requires 0 <= i < |cs + [c]| => Parenthesized((cs + [c])[i])) == parts + [Parenthesized(c)];
    JoinAppend(", ", parts, Parenthesized(c));
  }

  /** The header written for a command without a usable name. */
  const UnknownHeader: string := "Unknown name." + NewLine + "Desktop combinations: "

  /** GetDescription: a null command throws ArgumentNull; a non-blank name is the
      description; otherwise the combinations are listed (the laptop part keeps the
      source's "Lactop" spelling), and a null desktop set makes Select throw ArgumentNull. */
  function GetDescription(command: Option<CommandView>): Result<string> {
    if command.None? then Err(ArgumentNull)
    else
      var c := command.value;
      if c.name.Some? && !IsNullOrWhiteSpace(c.name.value) then Ok(c.name.value)
      else if c.desktop.None? then Err(ArgumentNull)
      else Ok(UnknownHeader + CombinationDesc(c.desktop.value) + "."
              + (if c.laptop.Some? then "Lactop combinations: " + CombinationDesc(c.laptop.value) else ""))
  }

  /** The description fails exactly for a null command, or an unnamed one whose desktop
      set is null; a named command is described by its name alone, an unnamed one by the
      header, its desktop combinations and, only when there is a laptop set, the laptop
      section. */
  lemma DescriptionCases(command: Option<CommandView>)
    ensures GetDescription(command).Err? <==>
      command.None? || ((command.value.name.None? || IsNullOrWhiteSpace(command.value.name.value)) && command.value.desktop.None?)
    ensures GetDescription(command).Err? ==> GetDescription(command).error == ArgumentNull
    ensures command.Some? && command.value.name.Some? && !IsNullOrWhiteSpace(command.value.name.value) ==>
      GetDescription(command) == Ok(command.value.name.value)
    ensures command.Some? && (command.value.name.None? || IsNullOrWhiteSpace(command.value.name.value)) && command.value.desktop.Some? ==>
      var d := GetDescription(command).value;
      && |d| >= |UnknownHeader| && d[..|UnknownHeader|] == UnknownHeader
      && (command.value.laptop.None? <==> d[|d| - 1] == '.')
  {
    if command.Some? {
      var c := command.value;
      if (c.name.None? || IsNullOrWhiteSpace(c.name.value)) && c.desktop.Some? {
        var d := GetDescription(command).value;
        var head := UnknownHeader + CombinationDesc(c.desktop.value) + ".";
        assert d[..|UnknownHeader|] == UnknownHeader;
        if c.laptop.Some? {
          var tail := "Lactop combinations: " + CombinationDesc(c.laptop.value);
          JoinEndsWithParen(c.laptop.value);
          assert d == head + tail;
          assert d[|d| - 1] == tail[|tail| - 1];
        }
      }
    }
  }

  /** A non-empty combination list's description ends with ')'; an empty one is "". */
  lemma JoinEndsWithParen(cs: seq<seq<Key>>)
    ensures var r := "Lactop combinations: " + CombinationDesc(cs); r[|r| - 1] != '.'
  {
    var parts := seq(|cs|, i requires 0 <= i < |cs| => Parenthesized(cs[i]));
    if |cs| >= 1 {
      JoinEndsWithLast(", ", parts);
    }
  }

  lemma {:induction false} JoinEndsWithLast(sep: string, parts: seq<string>)
    requires |parts| >= 1 && |parts[|parts| - 1]| >= 1
    ensures var r := Join(sep, parts); |r| >= 1 && r[|r| - 1] == parts[|parts| - 1][|parts[|parts| - 1]| - 1]
    decreases |parts|
  {
    if |parts| > 1 {
      JoinEndsWithLast(sep, parts[1..]);
    }
  }
}
