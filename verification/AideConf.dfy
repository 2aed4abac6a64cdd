/** Preparing a user's aide.conf for a pod that sees the node's root under /hostroot
    (pkg/controller/fileintegrity/config.go). */
module AideConf {
  import opened Text

  /** The directives with a fixed replacement: what a line starts with, and what replaces the rest. */
  datatype Directive = Directive(start: string, rest: string)

  const KUBE_DIR := " /hostroot/etc/kubernetes"
  const DB_FILE := "file:@@{DBDIR}/aide.db.gz"
  const NEW_DB_FILE := "file:@@{DBDIR}/aide.db.gz.new"
  const NEW_LOG_FILE := ":@@{LOGDIR}/aide.log.new"

  const DIRECTIVES := [
    Directive("@@define DBDIR", KUBE_DIR),
    Directive("@@define LOGDIR", KUBE_DIR),
    Directive("database=", DB_FILE),
    Directive("database_out=", NEW_DB_FILE),
    Directive("report_url=file", NEW_LOG_FILE)
  ]

  /** The first directive the line starts with, or |DIRECTIVES|. */
  function DirectiveOf(line: string): (k: nat)
    ensures k <= |DIRECTIVES|
  {
    if HasPrefix(line, DIRECTIVES[0].start) then 0
    else if HasPrefix(line, DIRECTIVES[1].start) then 1
    else if HasPrefix(line, DIRECTIVES[2].start) then 2
    else if HasPrefix(line, DIRECTIVES[3].start) then 3
    else if HasPrefix(line, DIRECTIVES[4].start) then 4
    else 5
  }

  /** A rule for a file, under the node's root. */
  function Hosted(path: string): string
  {
    if HasPrefix(path, "/hostroot") then path else "/hostroot" + path
  }

  /** What becomes of one line. */
  function Rewrite(line: string): string
  {
    var k := DirectiveOf(line);
    if k < |DIRECTIVES| then DIRECTIVES[k].start + DIRECTIVES[k].rest
    else if HasPrefix(line, "/") then Hosted(line)
    else if HasPrefix(line, "!/") then "!" + Hosted(line[1..])
    else line
  }

  function RewriteAll(lines: seq<string>): (r: seq<string>)
    ensures |r| == |lines|
    ensures forall i | 0 <= i < |lines| :: r[i] == Rewrite(lines[i])
  {
    seq(|lines|, i requires 0 <= i < |lines| => Rewrite(lines[i]))
  }

  /** The prepared configuration: the rewritten lines, joined again. */
  function Prepared(text: string): string
  {
    Join(RewriteAll(Split(text, '\n')), '\n')
  }

  /** prepareAideConf. Splitting yields at least one line, so the "input empty" error of the
      source is never returned, and no line equals "\n". */
  method PrepareAideConf(text: string) returns (conf: string)
    ensures conf == Prepared(text)
    ensures |Split(conf, '\n')| == |Split(text, '\n')|
    ensures forall i | 0 <= i < |Split(text, '\n')| :: IsPrepared(Split(text, '\n')[i], Split(conf, '\n')[i])
  {
    hide Rewrite, IsPrepared, Prepared;
    var conv := "";
    var lines := Split(text, '\n');
    for i := 0 to |lines|
      invariant conv == if i == 0 then "" else Join(RewriteAll(lines[..i]), '\n') + "\n"
    {
      conv := conv + Rewrite(lines[i]) + "\n";
      assert RewriteAll(lines[..i + 1]) == RewriteAll(lines[..i]) + [Rewrite(lines[i])];
      if i > 0 {
        JoinAppend(RewriteAll(lines[..i]), Rewrite(lines[i]), '\n');
      } else {
        assert RewriteAll(lines[..1]) == [Rewrite(lines[0])];
      }
    }
    assert lines[..|lines|] == lines;
    conf := conv[..|conv| - 1];
    assert conf == Prepared(text) by { PreparedIs(text); }
    forall i | 0 <= i < |lines|
      ensures |Split(conf, '\n')| == |lines| && IsPrepared(lines[i], Split(conf, '\n')[i])
    {
      LinesArePrepared(text, i);
    }
  }

  lemma PreparedIs(text: string)
    ensures Prepared(text) == Join(RewriteAll(Split(text, '\n')), '\n')
  {
  }

  // ---------- one line ----------

  lemma PrefixAppend(p: string, rest: string)
    ensures HasPrefix(p + rest, p)
  {
    assert (p + rest)[..|p|] == p;
  }

  /** Strings that differ at some place are no prefixes of one another's extensions. */
  lemma PrefixDiffers(s: string, p: string, i: nat)
    requires i < |p| && i < |s| && s[i] != p[i]
    ensures !HasPrefix(s, p)
  {
    if |p| <= |s| {
      assert s[..|p|][i] == s[i];
    }
  }

  /** The replacement of a directive is again that directive, and no earlier one. */
  lemma DirectiveTwice(k: nat)
    requires k < |DIRECTIVES|
    ensures DirectiveOf(DIRECTIVES[k].start + DIRECTIVES[k].rest) == k
  {
    var d := DIRECTIVES[k];
    var r := d.start + d.rest;
    PrefixAppend(d.start, d.rest);
    if k == 1 {
      PrefixDiffers(r, DIRECTIVES[0].start, 9);
    } else if k >= 2 {
      PrefixDiffers(r, DIRECTIVES[0].start, 0);
      PrefixDiffers(r, DIRECTIVES[1].start, 0);
      if k == 3 {
        PrefixDiffers(r, DIRECTIVES[2].start, 8);
      } else if k == 4 {
        PrefixDiffers(r, DIRECTIVES[2].start, 0);
        PrefixDiffers(r, DIRECTIVES[3].start, 0);
      }
    }
  }

  /** A line starting with a slash or an exclamation mark is no directive. */
  lemma RuleIsNoDirective(line: string)
    requires line != "" && (line[0] == '/' || line[0] == '!')
    ensures DirectiveOf(line) == |DIRECTIVES|
  {
    PrefixDiffers(line, DIRECTIVES[0].start, 0);
    PrefixDiffers(line, DIRECTIVES[1].start, 0);
    PrefixDiffers(line, DIRECTIVES[2].start, 0);
    PrefixDiffers(line, DIRECTIVES[3].start, 0);
    PrefixDiffers(line, DIRECTIVES[4].start, 0);
  }

  lemma HostedFacts(path: string)
    requires HasPrefix(path, "/")
    ensures Hosted(path)[0] == '/' && HasPrefix(Hosted(path), "/hostroot") && Hosted(Hosted(path)) == Hosted(path)
    ensures '\n' !in path ==> '\n' !in Hosted(path)
  {
    PrefixAppend("/hostroot", path);
    assert path[..1][0] == '/';
  }

  lemma RewriteTwice(line: string)
    ensures Rewrite(Rewrite(line)) == Rewrite(line)
  {
    var k := DirectiveOf(line);
    if k < |DIRECTIVES| {
      DirectiveTwice(k);
    } else if HasPrefix(line, "/") {
      HostedFacts(line);
      RuleIsNoDirective(Hosted(line));
    } else if HasPrefix(line, "!/") {
      assert line[..2][1] == '/' && line[..2][0] == '!';
      HostedFacts(line[1..]);
      var r := "!" + Hosted(line[1..]);
      RuleIsNoDirective(r);
      assert r[1..] == Hosted(line[1..]);
      PrefixDiffers(r, "/", 0);
    }
  }

  lemma RewriteKeepsLine(line: string)
    requires '\n' !in line
    ensures '\n' !in Rewrite(line)
  {
    var k := DirectiveOf(line);
    if k < |DIRECTIVES| {
      NoNewline(k);
    } else if HasPrefix(line, "/") {
      HostedFacts(line);
    } else if HasPrefix(line, "!/") {
      assert line[..2][1] == '/';
      HostedFacts(line[1..]);
    }
  }

  lemma NoNewline(k: nat)
    requires k < |DIRECTIVES|
    ensures '\n' !in DIRECTIVES[k].start + DIRECTIVES[k].rest
  {
    StartsAreOneLine();
    LastStartsAreOneLine();
    RestsAreOneLine();
    var d := DIRECTIVES[k];
    assert k == 0 || k == 1 || k == 2 || k == 3 || k == 4;
    OneLine(d.start, d.rest);
  }

  lemma StartsAreOneLine()
    ensures '\n' !in DIRECTIVES[0].start && '\n' !in DIRECTIVES[1].start && '\n' !in DIRECTIVES[2].start
  {
  }

  lemma LastStartsAreOneLine()
    ensures '\n' !in DIRECTIVES[3].start && '\n' !in DIRECTIVES[4].start
  {
  }

  lemma RestsAreOneLine()
    ensures '\n' !in KUBE_DIR && '\n' !in DB_FILE && '\n' !in NEW_DB_FILE && '\n' !in NEW_LOG_FILE
  {
  }

  lemma OneLine(a: string, b: string)
    requires '\n' !in a && '\n' !in b
    ensures '\n' !in a + b
  {
  }

  // ---------- the whole file ----------

  /** Line by line: as many lines, in order, each the rewritten one. */
  lemma LinesArePreserved(text: string)
    ensures Split(Prepared(text), '\n') == RewriteAll(Split(text, '\n'))
  {
    var lines := Split(text, '\n');
    var out := RewriteAll(lines);
    forall p | p in out
      ensures '\n' !in p
    {
      var i :| 0 <= i < |out| && out[i] == p;
      assert lines[i] in lines;
      RewriteKeepsLine(lines[i]);
    }
    SplitJoin(out, '\n');
  }

  /** What has to become of one line: a path keeps its text and is put under /hostroot unless it
      begins with that, five directives get their fixed text, anything else stays. */
  ghost predicate IsPrepared(line: string, out: string)
  {
    && (HasPrefix(line, "@@define DBDIR") ==> out == "@@define DBDIR" + " /hostroot/etc/kubernetes")
    && (HasPrefix(line, "@@define LOGDIR") ==> out == "@@define LOGDIR" + " /hostroot/etc/kubernetes")
    && (HasPrefix(line, "database=") ==> out == "database=" + "file:@@{DBDIR}/aide.db.gz")
    && (HasPrefix(line, "database_out=") ==> out == "database_out=" + "file:@@{DBDIR}/aide.db.gz.new")
    && (HasPrefix(line, "report_url=file") ==> out == "report_url=file" + ":@@{LOGDIR}/aide.log.new")
    && (HasPrefix(line, "/") ==> out == if HasPrefix(line, "/hostroot") then line else "/hostroot" + line)
    && (HasPrefix(line, "!/") ==> out == if HasPrefix(line, "!/hostroot") then line else "!/hostroot" + line[1..])
    && (!IsRewritten(line) ==> out == line)
  }

  /** The line starts with one of the seven prefixes. */
  ghost predicate IsRewritten(line: string)
  {
    || HasPrefix(line, "@@define DBDIR") || HasPrefix(line, "@@define LOGDIR")
    || HasPrefix(line, "database=") || HasPrefix(line, "database_out=") || HasPrefix(line, "report_url=file")
    || HasPrefix(line, "/") || HasPrefix(line, "!/")
  }

  /** Every line of every text, in its place, is what it has to become. */
  lemma LinesArePrepared(text: string, i: nat)
    requires i < |Split(text, '\n')|
    ensures |Split(Prepared(text), '\n')| == |Split(text, '\n')|
    ensures IsPrepared(Split(text, '\n')[i], Split(Prepared(text), '\n')[i])
  {
    hide IsPrepared;
    LinesArePreserved(text);
    RewritePrepares(Split(text, '\n')[i]);
  }

  /** Lines that start alike start with the same letters. */
  lemma SamePrefix(s: string, p: string, q: string, i: nat)
    requires HasPrefix(s, p) && HasPrefix(s, q) && i < |p| && i < |q|
    ensures p[i] == q[i] == s[i]
  {
    assert s[..|p|][i] == s[i] && s[..|q|][i] == s[i];
  }

  lemma RewritePrepares(line: string)
    ensures IsPrepared(line, Rewrite(line))
  {
    if HasPrefix(line, "/") {
      RulePrepared(line);
    } else if HasPrefix(line, "!/") {
      NegatedPrepared(line);
    } else if DirectiveOf(line) < |DIRECTIVES| {
      DirectivePrepared(line);
    }
  }

  lemma RulePrepared(line: string)
    requires HasPrefix(line, "/")
    ensures IsPrepared(line, Rewrite(line))
  {
    assert line[..1][0] == '/';
    RuleIsNoDirective(line);
    PrefixDiffers(line, "!/", 0);
  }

  lemma NegatedPrepared(line: string)
    requires HasPrefix(line, "!/")
    ensures IsPrepared(line, Rewrite(line))
  {
    assert line[..2][0] == '!' && line[..2][1] == '/';
    RuleIsNoDirective(line);
    PrefixDiffers(line, "/", 0);
    var path := line[1..];
    assert "!" + path == line && "!" + "/hostroot" == "!/hostroot";
    NegatedHostroot(line);
    assert "!" + ("/hostroot" + path) == "!/hostroot" + path;
  }

  lemma NegatedHostroot(line: string)
    requires HasPrefix(line, "!/")
    ensures HasPrefix(line, "!/hostroot") <==> HasPrefix(line[1..], "/hostroot")
  {
    assert line[..2][0] == '!';
    assert "!" + "/hostroot" == "!/hostroot";
    if |line| >= 10 {
      assert line[..10] == "!" + line[1..][..9];
      assert line[1..][..9] == line[..10][1..];
      assert "!/hostroot"[1..] == "/hostroot";
    }
  }

  lemma DirectivePrepared(line: string)
    requires DirectiveOf(line) < |DIRECTIVES|
    ensures IsPrepared(line, Rewrite(line))
  {
    var k := DirectiveOf(line);
    var start := DIRECTIVES[k].start;
    assert line[0] == start[0] by { SamePrefix(line, start, start, 0); }
    PrefixDiffers(line, "/", 0);
    PrefixDiffers(line, "!/", 0);
    OneDirective(line);
  }

  /** No line starts with two of the directives. */
  lemma OneDirective(line: string)
    ensures HasPrefix(line, DIRECTIVES[0].start) ==> DirectiveOf(line) == 0
    ensures HasPrefix(line, DIRECTIVES[1].start) ==> DirectiveOf(line) == 1
    ensures HasPrefix(line, DIRECTIVES[2].start) ==> DirectiveOf(line) == 2
    ensures HasPrefix(line, DIRECTIVES[3].start) ==> DirectiveOf(line) == 3
    ensures HasPrefix(line, DIRECTIVES[4].start) ==> DirectiveOf(line) == 4
  {
    forall j, k | 0 <= j < k < |DIRECTIVES| &&
                  HasPrefix(line, DIRECTIVES[j].start) && HasPrefix(line, DIRECTIVES[k].start)
      ensures false
    {
      SamePrefix(line, DIRECTIVES[j].start, DIRECTIVES[k].start,
                 if j == 0 && k == 1 then 9 else if j == 2 && k == 3 then 8 else 0);
    }
  }

  /** Preparing a prepared configuration changes nothing, for every text. */
  lemma PreparedTwice(text: string)
    ensures Prepared(Prepared(text)) == Prepared(text)
  {
    LinesArePreserved(text);
    var lines := Split(text, '\n');
    forall i | 0 <= i < |lines|
      ensures RewriteAll(RewriteAll(lines))[i] == RewriteAll(lines)[i]
    {
      RewriteTwice(lines[i]);
    }
    assert RewriteAll(RewriteAll(lines)) == RewriteAll(lines);
  }

  /** Every line of the result that is a rule, positive or negated, is under /hostroot. */
  lemma RulesAreHosted(text: string, i: nat)
    requires i < |Split(text, '\n')|
    ensures i < |Split(Prepared(text), '\n')|
    ensures var line, out := Split(text, '\n')[i], Split(Prepared(text), '\n')[i];
            && (HasPrefix(line, "/") <==> HasPrefix(out, "/")) && (HasPrefix(line, "!/") <==> HasPrefix(out, "!/"))
            && (HasPrefix(out, "/") ==> HasPrefix(out, "/hostroot"))
            && (HasPrefix(out, "!/") ==> HasPrefix(out, "!/hostroot"))
  {
    LinesArePreserved(text);
    RuleStaysRule(Split(text, '\n')[i]);
  }

  lemma RuleStaysRule(line: string)
    ensures var out := Rewrite(line);
            && (HasPrefix(line, "/") <==> HasPrefix(out, "/")) && (HasPrefix(line, "!/") <==> HasPrefix(out, "!/"))
            && (HasPrefix(out, "/") ==> HasPrefix(out, "/hostroot"))
            && (HasPrefix(out, "!/") ==> HasPrefix(out, "!/hostroot"))
  {
    var out := Rewrite(line);
    var k := DirectiveOf(line);
    if HasPrefix(line, "/") {
      assert line[..1][0] == '/';
      RuleIsNoDirective(line);
      HostedFacts(line);
      PrefixDiffers(line, "!/", 0);
    } else if HasPrefix(line, "!/") {
      assert line[..2][0] == '!' && line[..2][1] == '/';
      RuleIsNoDirective(line);
      HostedFacts(line[1..]);
      var h := Hosted(line[1..]);
      assert h[..9] == "/hostroot";
      assert ("!" + h)[..10] == "!" + h[..9];
      assert "!" + "/hostroot" == "!/hostroot";
    } else if k < |DIRECTIVES| {
      PrefixDiffers(out, "/", 0);
      PrefixDiffers(out, "!/", 0);
    }
  }

  /** A rule ends up below the directory /hostroot exactly when its path does not merely begin
      with those letters: /hostrootfs is left as it is. */
  lemma HostedDirectory(path: string)
    requires HasPrefix(path, "/")
    ensures Hosted(path) == "/hostroot" || HasPrefix(Hosted(path), "/hostroot/") <==>
            !(HasPrefix(path, "/hostroot") && |path| > 9 && path[9] != '/')
  {
    assert path[..1][0] == '/';
    var h := Hosted(path);
    assert h[..9] == "/hostroot" by {
      HostedFacts(path);
    }
    if |h| > 9 {
      assert h[..10] == "/hostroot" + [h[9]];
      assert "/hostroot" + ['/'] == "/hostroot/";
      assert h[..10][9] == h[9] && "/hostroot/"[9] == '/';
    }
  }

  /** The failing input: a path such as /hostrootfs is taken to be under /hostroot already. */
  lemma HostrootPrefixIsLeft(c: char, rest: string)
    requires c != '/'
    ensures var path := "/hostroot" + [c] + rest;
            Hosted(path) == path && path != "/hostroot" && !HasPrefix(path, "/hostroot/")
  {
    var path := "/hostroot" + [c] + rest;
    assert path[..9] == "/hostroot" && path[9] == c;
    PrefixDiffers(path, "/hostroot/", 9);
  }

  /** Where the configuration comes from: none named in the spec, a ConfigMap that is missing or
      has no data under the key, or the text found there. */
  datatype UserConfig = NotNamed | Unusable | Found(text: string)

  /** The configuration reconcileUserConfig compares the stored one with; None leaves it alone. */
  function DesiredConf(u: UserConfig, default: string): Option<string>
  {
    match u
    case NotNamed => Some(default)
    case Unusable => None
    case Found(text) => if text == "" then None else Some(Prepared(text))
  }
}
