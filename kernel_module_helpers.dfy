/**
 * The two helpers of the kernel_module resource's action class:
 * the platform-dependent initramfs rebuild command, and the probe that
 * decides whether a kernel module is loaded by searching the text of
 * the kernel's module table for a line that begins with the module name.
 */
module KernelModuleHelpers {

  /** The command that regenerates the initramfs on this platform. */
  function InitramfsCommand(debianFamily: bool): (cmd: string)
    ensures debianFamily ==> cmd == "update-initramfs -u"
    ensures !debianFamily ==> cmd == "dracut -f"
  {
    if debianFamily then "update-initramfs -u" else "dracut -f"
  }

  /** The module table holds one line per loaded module; none contains a newline. */
  predicate WellFormedTable(lines: seq<string>) {
    forall l | l in lines :: '\n' !in l
  }

  /** The text of the module table: every line terminated by a newline. */
  function ModulesText(lines: seq<string>): string {
    if lines == [] then "" else lines[0] + "\n" + ModulesText(lines[1..])
  }

  /**
   * Position p of text is where the anchor `^` can match: the start of the
   * text, or just after a newline that is not the last character.
   */
  predicate AtLineStart(text: string, p: int) {
    p == 0 || (0 < p < |text| && text[p - 1] == '\n')
  }

  /** pat occurs in text starting at position p. */
  predicate OccursAt(text: string, pat: string, p: int) {
    0 <= p && p + |pat| <= |text| && text[p..p + |pat|] == pat
  }

  /** The regular expression `^pat` (pat read literally) matches somewhere in text. */
  predicate LineStartMatch(text: string, pat: string) {
    exists p :: 0 <= p <= |text| && AtLineStart(text, p) && OccursAt(text, pat, p)
  }

  /** The module is reported loaded when `^modname` matches the module table's text. */
  predicate ModuleLoaded(table: seq<string>, modname: string) {
    LineStartMatch(ModulesText(table), modname)
  }

  /** Some line of the table has modname as a prefix. */
  predicate SomeLineBegins(table: seq<string>, modname: string) {
    exists l | l in table :: modname <= l
  }

  lemma {:induction false} ModulesTextSplit(lines: seq<string>)
    requires lines != []
    ensures ModulesText(lines) == lines[0] + "\n" + ModulesText(lines[1..])
    ensures |ModulesText(lines)| == |lines[0]| + 1 + |ModulesText(lines[1..])|
  {
  }

  /** A match at the start of some line, read back as a prefix of that line. */
  lemma {:induction false} MatchGivesLine(lines: seq<string>, m: string, p: int)
    requires WellFormedTable(lines) && '\n' !in m && m != []
    requires 0 <= p <= |ModulesText(lines)| && AtLineStart(ModulesText(lines), p)
    requires OccursAt(ModulesText(lines), m, p)
    ensures SomeLineBegins(lines, m)
    decreases |lines|
  {
    var text := ModulesText(lines);
    if lines != [] {
      ModulesTextSplit(lines);
      var l0 := lines[0];
      var rest := ModulesText(lines[1..]);
      var k := |l0| + 1;
      assert l0 in lines;
      if p < k {
        assert p == 0;
        assert text[|l0|] == '\n';
        assert |m| <= |l0|;
        assert m == text[0..|m|] == l0[..|m|];
      } else {
        var q := p - k;
        assert rest[q..q + |m|] == text[p..p + |m|];
        if q > 0 {
          assert rest[q - 1] == text[p - 1];
        }
        MatchGivesLine(lines[1..], m, q);
        var l :| l in lines[1..] && m <= l;
        assert l in lines;
      }
    }
  }

  /** A line with prefix m gives a match of `^m` at that line's start. */
  lemma {:induction false} LineGivesMatch(lines: seq<string>, m: string, i: int)
    requires 0 <= i < |lines| && m <= lines[i]
    ensures LineStartMatch(ModulesText(lines), m)
    decreases |lines|
  {
    var text := ModulesText(lines);
    ModulesTextSplit(lines);
    var l0 := lines[0];
    var rest := ModulesText(lines[1..]);
    var k := |l0| + 1;
    if i == 0 {
      assert text[0..|m|] == l0[0..|m|] == m;
      assert AtLineStart(text, 0) && OccursAt(text, m, 0);
    } else {
      LineGivesMatch(lines[1..], m, i - 1);
      var q :| 0 <= q <= |rest| && AtLineStart(rest, q) && OccursAt(rest, m, q);
      var p := k + q;
      assert text[p..p + |m|] == rest[q..q + |m|];
      assert |rest| > 0 by {
        ModulesTextSplit(lines[1..]);
      }
      if q == 0 {
        assert text[p - 1] == '\n';
      } else {
        assert text[p - 1] == rest[q - 1];
      }
      assert AtLineStart(text, p) && OccursAt(text, m, p);
    }
  }

  /**
   * Reading the table as lines: `^modname` matches exactly when some line
   * begins with modname, or modname is empty (`^` alone matches any text).
   * The match is a prefix match: it does not require modname to be the
   * whole first token of the line.
   */
  lemma ModuleLoadedIffLineBegins(table: seq<string>, modname: string)
    requires WellFormedTable(table) && '\n' !in modname
    ensures ModuleLoaded(table, modname) <==> modname == [] || SomeLineBegins(table, modname)
  {
    var text := ModulesText(table);
    if modname == [] {
      assert AtLineStart(text, 0) && OccursAt(text, modname, 0);
    } else {
      if ModuleLoaded(table, modname) {
        var p :| 0 <= p <= |text| && AtLineStart(text, p) && OccursAt(text, modname, p);
        MatchGivesLine(table, modname, p);
      }
      if SomeLineBegins(table, modname) {
        var l :| l in table && modname <= l;
        var i :| 0 <= i < |table| && table[i] == l;
        LineGivesMatch(table, modname, i);
      }
    }
  }

  /**
   * The prefix match reports "nf_conntrack" loaded when the only line of the
   * table belongs to the module "nf_conntrack_ipv4".
   */
  lemma PrefixCollision()
    ensures ModuleLoaded(["nf_conntrack_ipv4 16384 1 - Live 0x0000000000000000"], "nf_conntrack")
  {
    var line := "nf_conntrack_ipv4 16384 1 - Live 0x0000000000000000";
    LineGivesMatch([line], "nf_conntrack", 0);
  }
}
