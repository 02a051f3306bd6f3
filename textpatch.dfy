/**
 * The configuration files the installer edits line by line: `/etc/locale.gen`
 * (`uncomment_locale_gen`), the display manager's configuration
 * (`set_autologin`) and `/etc/keyboard.conf`. A file is the list of its lines
 * as `readlines` returns them, each with its line ending.
 */
module TextPatch {
  import opened Strings
  import opened Wrappers

  // ---------------------------------------------------------------------
  // /etc/locale.gen

  /**
   * One line of `locale.gen` after uncommenting `locale`: a line that
   * contains the locale and starts with `#` loses that `#`. (`readlines`
   * never returns an empty line, so `line[0]` always exists there.)
   */
  function LocaleLine(locale: string, line: string): string
  {
    if Contains(line, locale) && |line| > 0 && line[0] == '#' then line[1..] else line
  }

  /** A line changes exactly when it mentions the locale and is commented out, and then only its `#` goes. */
  lemma LocaleLineChanges(locale: string, line: string)
    ensures LocaleLine(locale, line) != line <==> Contains(line, locale) && StartsWith(line, "#")
    ensures LocaleLine(locale, line) != line ==> "#" + LocaleLine(locale, line) == line
  {
    if Contains(line, locale) && StartsWith(line, "#") {
      assert |LocaleLine(locale, line)| == |line| - 1;
      assert line == [line[0]] + line[1..];
    }
  }

  /** `uncomment_locale_gen`: the lines written back, one for each line read. */
  method UncommentLocaleGen(locale: string, text: seq<string>) returns (out: seq<string>)
    ensures |out| == |text|
    ensures forall k :: 0 <= k < |text| ==> out[k] == LocaleLine(locale, text[k])
  {
    out := [];
    for i := 0 to |text|
      invariant |out| == i
      invariant forall k :: 0 <= k < i ==> out[k] == LocaleLine(locale, text[k])
    {
      var line := text[i];
      if Contains(line, locale) && |line| > 0 && line[0] == '#' {
        line := line[1..];
      }
      out := out + [line];
    }
  }

  // ---------------------------------------------------------------------
  // Automatic login

  /** `if trigger in line: line = replacement` */
  function Replace(line: string, trigger: string, replacement: string): string
  {
    if Contains(line, trigger) then replacement else line
  }

  /** The replacement for mdm's and gdm's `[daemon]` line. */
  function DaemonSection(user: string): string
  {
    "[daemon]\nAutomaticLogin=" + user + "\nAutomaticLoginEnable=True\n"
  }

  /** The display managers whose line-by-line rewrite in `set_autologin` is modelled; sddm's is not. */
  predicate Rewrites(dm: string)
  {
    dm == "mdm" || dm == "gdm" || dm == "kdm" || dm == "lxdm" || dm == "lightdm" || dm == "slim"
  }

  /** One configuration line of display manager `dm` after enabling automatic login for `user`. */
  function AutologinLine(dm: string, user: string, line: string): string
  {
    if dm == "mdm" || dm == "gdm" then Replace(line, "[daemon]", DaemonSection(user))
    else if dm == "kdm" then
      Replace(Replace(line, "#AutoLoginEnable=true", "AutoLoginEnable=true\n"), "AutoLoginUser=", "AutoLoginUser=" + user + "\n")
    else if dm == "lxdm" then Replace(line, "# autologin=dgod", "autologin=" + user + "\n")
    else if dm == "lightdm" then Replace(line, "#autologin-user=", "autologin-user=" + user + "\n")
    else if dm == "slim" then
      Replace(Replace(line, "auto_login", "auto_login yes\n"), "default_user", "default_user " + user + "\n")
    else line
  }

  /** The loop of `set_autologin` over the lines it read. */
  method AutologinLines(dm: string, user: string, text: seq<string>) returns (out: seq<string>)
    ensures |out| == |text|
    ensures forall k :: 0 <= k < |text| ==> out[k] == AutologinLine(dm, user, text[k])
  {
    out := [];
    for i := 0 to |text|
      invariant |out| == i
      invariant forall k :: 0 <= k < i ==> out[k] == AutologinLine(dm, user, text[k])
    {
      var line := text[i];
      if dm == "mdm" || dm == "gdm" {
        if Contains(line, "[daemon]") {
          line := DaemonSection(user);
        }
      } else if dm == "kdm" {
        if Contains(line, "#AutoLoginEnable=true") {
          line := "AutoLoginEnable=true\n";
        }
        if Contains(line, "AutoLoginUser=") {
          line := "AutoLoginUser=" + user + "\n";
        }
      } else if dm == "lxdm" {
        if Contains(line, "# autologin=dgod") {
          line := "autologin=" + user + "\n";
        }
      } else if dm == "lightdm" {
        if Contains(line, "#autologin-user=") {
          line := "autologin-user=" + user + "\n";
        }
      } else if dm == "slim" {
        if Contains(line, "auto_login") {
          line := "auto_login yes\n";
        }
        if Contains(line, "default_user") {
          line := "default_user " + user + "\n";
        }
      }
      out := out + [line];
    }
  }

  /** The file mdm and gdm get when they have no `custom.conf`. */
  function FreshDaemonConf(user: string): seq<string>
  {
    ["# Thus - Enable automatic login for user\n", "[daemon]\n", "AutomaticLogin=" + user + "\n", "AutomaticLoginEnable=True\n"]
  }

  /** What `set_autologin` does to the display manager's configuration file. */
  datatype ConfEdit =
    | Rewritten(lines: seq<string>)   // the file existed and was rewritten
    | Created(lines: seq<string>)     // mdm or gdm: a new file was written
    | MissingFile                     // kdm, lxdm, lightdm, slim: opening the file raised `FileNotFoundError`
    | Untouched                       // any other display manager, sddm included (not modelled)

  /**
   * What `set_autologin` does to a configuration file whose lines are `conf`
   * (`None` when it does not exist): only mdm, gdm, kdm, lxdm, lightdm and
   * slim are modelled, and any other name, sddm included, gives `Untouched`;
   * for those six an existing file is rewritten line by line; mdm and gdm get
   * a fresh file when theirs is missing, the others fail to open it.
   */
  predicate AutologinEdit(dm: string, user: string, conf: Option<seq<string>>, r: ConfEdit)
  {
    && (!Rewrites(dm) <==> r.Untouched?)
    && (r.MissingFile? <==> Rewrites(dm) && dm != "mdm" && dm != "gdm" && conf.None?)
    && (r.Created? <==> (dm == "mdm" || dm == "gdm") && conf.None?)
    && (r.Created? ==> r.lines == FreshDaemonConf(user))
    && (r.Rewritten? ==> Rewrites(dm) && conf.Some? && |r.lines| == |conf.value|
                         && forall k :: 0 <= k < |r.lines| ==> r.lines[k] == AutologinLine(dm, user, conf.value[k]))
  }

  /** `set_autologin`'s file handling: `conf` is the file's lines, `None` when it does not exist. */
  method AutologinConf(dm: string, user: string, conf: Option<seq<string>>) returns (r: ConfEdit)
    ensures AutologinEdit(dm, user, conf, r)
  {
    if !Rewrites(dm) {
      return Untouched;
    }
    match conf
    case None =>
      if dm == "mdm" || dm == "gdm" {
        r := Created(FreshDaemonConf(user));
      } else {
        r := MissingFile;
      }
    case Some(text) =>
      var lines := AutologinLines(dm, user, text);
      r := Rewritten(lines);
  }

  /** The substrings that make `set_autologin` replace a line of `dm`'s configuration. */
  function Triggers(dm: string): seq<string>
  {
    if dm == "mdm" || dm == "gdm" then ["[daemon]"]
    else if dm == "kdm" then ["#AutoLoginEnable=true", "AutoLoginUser="]
    else if dm == "lxdm" then ["# autologin=dgod"]
    else if dm == "lightdm" then ["#autologin-user="]
    else if dm == "slim" then ["auto_login", "default_user"]
    else []
  }

  /** Only a line holding one of the display manager's triggers changes; a display manager without triggers changes nothing. */
  lemma AutologinOnlyTriggered(dm: string, user: string, line: string)
    ensures AutologinLine(dm, user, line) != line ==> exists k :: 0 <= k < |Triggers(dm)| && Contains(line, Triggers(dm)[k])
    ensures |Triggers(dm)| > 0 <==> Rewrites(dm)
  {
    if dm == "kdm" {
      KdmLine(user, line);
    } else if dm == "slim" {
      SlimLine(user, line);
    }
    if AutologinLine(dm, user, line) != line {
      assert Contains(line, Triggers(dm)[0]) || Contains(line, Triggers(dm)[|Triggers(dm)| - 1]);
    }
  }

  /** LightDM: `#autologin-user=` lines become `autologin-user=<user>`; no other line changes. */
  lemma LightdmLine(user: string, line: string)
    ensures AutologinLine("lightdm", user, line)
         == if Contains(line, "#autologin-user=") then "autologin-user=" + user + "\n" else line
  {
  }

  /**
   * Slim: a line mentioning `auto_login` becomes `auto_login yes`, one
   * mentioning only `default_user` names the user, and every other line is
   * kept.
   */
  lemma SlimLine(user: string, line: string)
    ensures Contains(line, "auto_login") ==> AutologinLine("slim", user, line) == "auto_login yes\n"
    ensures !Contains(line, "auto_login") && Contains(line, "default_user")
            ==> AutologinLine("slim", user, line) == "default_user " + user + "\n"
    ensures !Contains(line, "auto_login") && !Contains(line, "default_user") ==> AutologinLine("slim", user, line) == line
  {
    SlimRewrites(user, line);
    NoTriggerInReplacement("auto_login yes\n", "default_user", 0);
    TwoRewrites(line, "auto_login", "auto_login yes\n", "default_user", "default_user " + user + "\n");
  }

  /** KDM: the enable line wins over the user line; the two rewrites never apply to the same line. */
  lemma KdmLine(user: string, line: string)
    ensures Contains(line, "#AutoLoginEnable=true") ==> AutologinLine("kdm", user, line) == "AutoLoginEnable=true\n"
    ensures !Contains(line, "#AutoLoginEnable=true") && Contains(line, "AutoLoginUser=")
            ==> AutologinLine("kdm", user, line) == "AutoLoginUser=" + user + "\n"
    ensures !Contains(line, "#AutoLoginEnable=true") && !Contains(line, "AutoLoginUser=") ==> AutologinLine("kdm", user, line) == line
  {
    KdmRewrites(user, line);
    NoTriggerInReplacement("AutoLoginEnable=true\n", "AutoLoginUser=", 9);
    TwoRewrites(line, "#AutoLoginEnable=true", "AutoLoginEnable=true\n", "AutoLoginUser=", "AutoLoginUser=" + user + "\n");
  }

  lemma SlimRewrites(user: string, line: string)
    ensures AutologinLine("slim", user, line)
         == Replace(Replace(line, "auto_login", "auto_login yes\n"), "default_user", "default_user " + user + "\n")
  {
  }

  lemma KdmRewrites(user: string, line: string)
    ensures AutologinLine("kdm", user, line)
         == Replace(Replace(line, "#AutoLoginEnable=true", "AutoLoginEnable=true\n"), "AutoLoginUser=", "AutoLoginUser=" + user + "\n")
  {
  }

  /** Two rewrites in a row: the first one wins when its replacement cannot trigger the second. */
  lemma TwoRewrites(line: string, t1: string, r1: string, t2: string, r2: string)
    requires !Contains(r1, t2)
    ensures Contains(line, t1) ==> Replace(Replace(line, t1, r1), t2, r2) == r1
    ensures !Contains(line, t1) && Contains(line, t2) ==> Replace(Replace(line, t1, r1), t2, r2) == r2
    ensures !Contains(line, t1) && !Contains(line, t2) ==> Replace(Replace(line, t1, r1), t2, r2) == line
  {
  }

  lemma NoTriggerInReplacement(replacement: string, trigger: string, k: nat)
    requires k < |trigger| && trigger[k] !in replacement
    ensures !Contains(replacement, trigger)
  {
    MissingCharNotContained(replacement, trigger, k);
  }

  /** Enabling LightDM's automatic login a second time changes nothing, for a user name without `#`. */
  lemma LightdmIdempotent(user: string, line: string)
    requires '#' !in user
    ensures AutologinLine("lightdm", user, AutologinLine("lightdm", user, line)) == AutologinLine("lightdm", user, line)
  {
    if Contains(line, "#autologin-user=") {
      var r := "autologin-user=" + user + "\n";
      assert '#' !in r by {
        assert forall k :: 0 <= k < |r| ==> r[k] != '#' by {
          forall k | 0 <= k < |r| ensures r[k] != '#' {
            if 15 <= k < 15 + |user| {
              assert r[k] == user[k - 15];
            }
          }
        }
      }
      MissingCharNotContained(r, "#autologin-user=", 0);
    }
  }

  // ---------------------------------------------------------------------
  // /etc/keyboard.conf

  /** The line-ending characters `rstrip("\r\n")` removes. */
  const LineEnd: set<char> := {'\r', '\n'}

  /** One line of `keyboard.conf` as the installer writes it back. */
  function KeyboardLine(layout: string, variant: string, line: string): string
  {
    KeyboardEntry(layout, variant, RStrip(line, LineEnd)) + "\n"
  }

  /** The line written for the stripped line `l`, before its `\n`. */
  function KeyboardEntry(layout: string, variant: string, l: string): string
  {
    if StartsWith(l, "XKBLAYOUT=") then "XKBLAYOUT=\"" + layout + "\""
    else if StartsWith(l, "XKBVARIANT=") && variant != "" then "XKBVARIANT=\"" + variant + "\""
    else l
  }

  /** The rewrite of `keyboard.conf` into `keyboard.new`, one line out for each line in. */
  method RewriteKeyboardConf(layout: string, variant: string, text: seq<string>) returns (out: seq<string>)
    ensures |out| == |text|
    ensures forall k :: 0 <= k < |text| ==> out[k] == KeyboardLine(layout, variant, text[k])
  {
    out := [];
    for i := 0 to |text|
      invariant |out| == i
      invariant forall k :: 0 <= k < i ==> out[k] == KeyboardLine(layout, variant, text[k])
    {
      var line := RStrip(text[i], LineEnd);
      if StartsWith(line, "XKBLAYOUT=") {
        out := out + ["XKBLAYOUT=\"" + layout + "\"" + "\n"];
      } else if StartsWith(line, "XKBVARIANT=") && variant != "" {
        out := out + ["XKBVARIANT=\"" + variant + "\"" + "\n"];
      } else {
        out := out + [line + "\n"];
      }
    }
  }

  /**
   * The layout line is always replaced; the variant line only when a variant
   * is given; every other line is kept, with its line ending normalised to one `\n`.
   */
  lemma KeyboardLineCases(layout: string, variant: string, line: string)
    ensures var l := RStrip(line, LineEnd);
            && (StartsWith(l, "XKBLAYOUT=") ==> KeyboardLine(layout, variant, line) == "XKBLAYOUT=\"" + layout + "\"" + "\n")
            && (StartsWith(l, "XKBVARIANT=") && variant != "" ==> KeyboardLine(layout, variant, line) == "XKBVARIANT=\"" + variant + "\"" + "\n")
            && (StartsWith(l, "XKBVARIANT=") && variant == "" ==> KeyboardLine(layout, variant, line) == l + "\n")
            && (!StartsWith(l, "XKBLAYOUT=") && !StartsWith(l, "XKBVARIANT=") ==> KeyboardLine(layout, variant, line) == l + "\n")
  {
    var l := RStrip(line, LineEnd);
    assert KeyboardLine(layout, variant, line) == KeyboardEntry(layout, variant, l) + "\n";
    if StartsWith(l, "XKBVARIANT=") {
      VariantIsNotLayout(l);
    }
  }

  /** No line both sets `XKBVARIANT` and `XKBLAYOUT`. */
  lemma VariantIsNotLayout(l: string)
    requires StartsWith(l, "XKBVARIANT=")
    ensures !StartsWith(l, "XKBLAYOUT=")
  {
    assert l[3] == "XKBVARIANT="[3] == 'V';
  }

  /** Every line written ends with exactly the one `\n` the rewrite adds. */
  lemma KeyboardLineEnds(layout: string, variant: string, line: string)
    ensures var r := KeyboardLine(layout, variant, line);
            EndsWith(r, "\n") && r[..|r| - 1] == KeyboardEntry(layout, variant, RStrip(line, LineEnd))
  {
    var e := KeyboardEntry(layout, variant, RStrip(line, LineEnd));
    assert (e + "\n")[|e|..] == "\n";
    assert (e + "\n")[..|e|] == e;
  }

  /** Stripping the one `\n` added after a string that does not end in a line-ending character gives the string back. */
  lemma RStripAdded(s: string)
    requires |s| == 0 || s[|s| - 1] !in LineEnd
    ensures RStrip(s + "\n", LineEnd) == s
  {
    assert (s + "\n")[..|s|] == s;
  }

  /** Rewriting `keyboard.conf` twice gives what rewriting it once gives. */
  lemma KeyboardLineIdempotent(layout: string, variant: string, line: string)
    ensures KeyboardLine(layout, variant, KeyboardLine(layout, variant, line)) == KeyboardLine(layout, variant, line)
  {
    var l := RStrip(line, LineEnd);
    var body := KeyboardEntry(layout, variant, l);
    if StartsWith(l, "XKBLAYOUT=") {
      RStripAdded(body);
      assert body[..10] == "XKBLAYOUT=";
    } else if StartsWith(l, "XKBVARIANT=") && variant != "" {
      RStripAdded(body);
      assert body[..11] == "XKBVARIANT=";
      assert body[3] == 'V';
    } else {
      RStripAdded(l);
    }
  }
}
