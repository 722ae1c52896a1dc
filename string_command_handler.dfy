/**
 * A handler for string commands put on the update queue by hand: an update
 * matches when it is a `str` that starts with '/' and whose first
 * space-separated word after the slash is the handler's command; the match
 * result is the list of the remaining words.
 */
module StringCommandHandlers {

  import opened Wrappers
  import opened Updates
  import opened SpaceSplit
  import opened Contexts

  class StringCommandHandler {
    /** The command this handler listens for, without the leading '/'. */
    var command: string

    constructor (command: string)
      ensures this.command == command
    {
      this.command := command;
    }

    /**
     * `check_update`: the arguments following the command, or `None` when
     * the update is not this command.
     */
    function CheckUpdate(update: Update): (r: Option<seq<string>>)
      reads this
      ensures !update.Text? ==> r == None
      ensures update.Text? && (|update.text| == 0 || update.text[0] != '/') ==> r == None
      ensures r.Some? ==> NoSpace(command) && AllNoSpace(r.value)
    {
      match update
      case Text(s) =>
        if |s| > 0 && s[0] == '/' then
          var args := SplitOnSpace(s[1..]);
          if args[0] == command then Some(args[1..]) else None
        else None
      case Object(_) => None
    }

    /**
     * `collect_additional_context`: stores the match result in
     * `context.args`, replacing what was there, and touches nothing else.
     */
    method CollectAdditionalContext(context: CallbackContext, update: string, checkResult: Option<seq<string>>)
      modifies context`args
      ensures context.args == checkResult
      ensures context.userAttributes == old(context.userAttributes)
    {
      context.args := checkResult;
    }

    /**
     * A text update is this command with arguments `args` exactly when it is
     * '/', the command, and each argument preceded by one space, where
     * neither the command nor any argument holds a space.
     */
    lemma MatchIff(s: string, args: seq<string>)
      ensures CheckUpdate(Text(s)) == Some(args)
          <==> NoSpace(command) && AllNoSpace(args) && s == "/" + command + SpacePrefixed(args)
    {
      var ts := [command] + args;
      assert ts[0] == command && ts[1..] == args;
      if CheckUpdate(Text(s)) == Some(args) {
        var parts := SplitOnSpace(s[1..]);
        assert parts == ts;
        JoinSplit(s[1..]);
        JoinHeadTail(parts);
        assert s == [s[0]] + s[1..];
      }
      if NoSpace(command) && AllNoSpace(args) && s == "/" + command + SpacePrefixed(args) {
        assert AllNoSpace(ts);
        JoinHeadTail(ts);
        assert s[1..] == JoinOnSpace(ts);
        SplitJoin(ts);
      }
    }

    /** Round trip: a match result rebuilds the update it came from. */
    lemma RoundTrip(update: Update, args: seq<string>)
      requires CheckUpdate(update) == Some(args)
      ensures update == Text("/" + command + SpacePrefixed(args))
    {
      MatchIff(update.text, args);
    }

    /**
     * A text update matches exactly when the command holds no space and the
     * text is '/' and the command, alone or followed by a space.
     */
    lemma MatchesIffPrefix(s: string)
      ensures CheckUpdate(Text(s)).Some?
          <==> NoSpace(command) && (s == "/" + command || "/" + command + " " <= s)
    {
      if CheckUpdate(Text(s)).Some? {
        MatchHasPrefix(s, CheckUpdate(Text(s)).value);
      }
      if NoSpace(command) && s == "/" + command {
        MatchIff(s, []);
      } else if NoSpace(command) && "/" + command + " " <= s {
        PrefixMatches(s);
      }
    }

    lemma MatchHasPrefix(s: string, args: seq<string>)
      requires CheckUpdate(Text(s)) == Some(args)
      ensures s == "/" + command || "/" + command + " " <= s
    {
      MatchIff(s, args);
      if args != [] {
        assert s == ("/" + command + " ") + (args[0] + SpacePrefixed(args[1..]));
      }
    }

    lemma PrefixMatches(s: string)
      requires NoSpace(command) && "/" + command + " " <= s
      ensures CheckUpdate(Text(s)).Some?
    {
      var head := "/" + command;
      var rest := s[|head| + 1..];
      var ts := SplitOnSpace(rest);
      JoinSplit(rest);
      JoinHeadTail(ts);
      assert s == head + " " + rest;
      assert s == head + SpacePrefixed(ts);
      MatchIff(s, ts);
    }

    /** A command that holds a space never matches. */
    lemma CommandWithSpaceNeverMatches(update: Update)
      requires !NoSpace(command)
      ensures CheckUpdate(update) == None
    {
    }
  }

  /** `"/start a b"` gives `["a", "b"]`. */
  lemma ExampleTwoArgs(h: StringCommandHandler)
    requires h.command == "start"
    ensures h.CheckUpdate(Text("/start a b")) == Some(["a", "b"])
  {
    assert "/start a b" == "/" + h.command + SpacePrefixed(["a", "b"]);
    h.MatchIff("/start a b", ["a", "b"]);
  }

  /** `"/start"` gives the empty list, which is a match. */
  lemma ExampleNoArgs(h: StringCommandHandler)
    requires h.command == "start"
    ensures h.CheckUpdate(Text("/start")) == Some([])
  {
    assert "/start" == "/" + h.command + SpacePrefixed([]);
    h.MatchIff("/start", []);
  }

  /** `"/start a  b"` (two spaces) gives `["a", "", "b"]`. */
  lemma ExampleDoubleSpace(h: StringCommandHandler)
    requires h.command == "start"
    ensures h.CheckUpdate(Text("/start a  b")) == Some(["a", "", "b"])
  {
    assert "/start a  b" == "/" + h.command + SpacePrefixed(["a", "", "b"]);
    h.MatchIff("/start a  b", ["a", "", "b"]);
  }

  /** `"/stop a"` is another command. */
  lemma ExampleOtherCommand(h: StringCommandHandler)
    requires h.command == "start"
    ensures h.CheckUpdate(Text("/stop a")) == None
  {
    h.MatchesIffPrefix("/stop a");
    assert ("/start ")[3] != ("/stop a")[3];
  }

}
