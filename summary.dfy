/**
 * The e-mail body: `cents_to_str` (monitor_throne.py:498-502) and
 * `summarize_changes` (monitor_throne.py:532-546).
 */
module Summary {
  import opened Wrappers
  import opened Text
  import opened Items
  import opened Reconcile

  /** `"$"`, `"€"`, `"£"` for USD, EUR, GBP, else no symbol. */
  function Symbol(currency: string): (sym: string)
    ensures currency == "USD" ==> sym == "$"
    ensures currency == "EUR" ==> sym == "\U{20AC}"
    ensures currency == "GBP" ==> sym == "\U{00A3}"
    ensures sym == [] <==> currency != "USD" && currency != "EUR" && currency != "GBP"
    ensures |sym| <= 1
  {
    if currency == "USD" then "$"
    else if currency == "EUR" then "\U{20AC}"
    else if currency == "GBP" then "\U{00A3}"
    else ""
  }

  /** `f"{cents/100:.2f}"` for a non-negative amount: whole units, a dot, two digits. */
  function Amount(cents: nat): (s: string)
    ensures |s| >= 4 && s[|s| - 3] == '.' && AllDigits(s[..|s| - 3]) && AllDigits(s[|s| - 2..])
  {
    NatToString(cents / 100) + "." + [DigitChar((cents % 100) / 10), DigitChar(cents % 10)]
  }

  /** Reads digits, a dot and two digits back as cents; None for any other text. */
  function ParseAmount(s: string): Option<nat>
  {
    if |s| >= 4 && s[|s| - 3] == '.' && AllDigits(s[..|s| - 3]) && AllDigits(s[|s| - 2..]) then
      assert IsDigit(s[|s| - 2..][0]) && IsDigit(s[|s| - 2..][1]);
      Some(DigitsValue(s[..|s| - 3]) * 100 + DigitValue(s[|s| - 2]) * 10 + DigitValue(s[|s| - 1]))
    else None
  }

  /** The amount text denotes exactly the given cents. */
  lemma AmountRoundTrip(cents: nat)
    ensures ParseAmount(Amount(cents)) == Some(cents)
  {
    var s := Amount(cents);
    assert s[..|s| - 3] == NatToString(cents / 100);
    NatToStringRoundTrip(cents / 100);
  }

  /** `cents_to_str`: "unknown" for the sentinel, else the amount with symbol or currency code. */
  function CentsToStr(cents: int, currency: string): (s: string)
    ensures s == "unknown" <==> cents < 0
    ensures cents >= 0 && Symbol(currency) != [] ==> s == Symbol(currency) + Amount(cents)
    ensures cents >= 0 && Symbol(currency) == [] ==> s == Amount(cents) + " " + currency
  {
    if cents < 0 then "unknown"
    else
      var sym := Symbol(currency);
      var amount := Amount(cents);
      assert IsDigit(amount[|amount| - 2..][1]);
      if sym != [] then
        assert (sym + amount)[|sym + amount| - 1] == amount[|amount| - 1];
        sym + amount
      else
        assert (amount + " " + currency)[|amount|] == ' ';
        amount + " " + currency
  }

  /** The amount shown after the symbol or before the code reads back as the cents. */
  lemma CentsToStrShowsAmount(cents: nat, currency: string)
    ensures var s := CentsToStr(cents, currency);
            var amount := if Symbol(currency) != [] then s[|Symbol(currency)|..] else s[..|s| - |currency| - 1];
            ParseAmount(amount) == Some(cents)
  {
    var s := CentsToStr(cents, currency);
    AmountRoundTrip(cents);
    if Symbol(currency) != [] {
      assert s[|Symbol(currency)|..] == Amount(cents);
    } else {
      assert s[..|s| - |currency| - 1] == Amount(cents);
    }
  }

  const Bullet: string := "  \U{2022} "
  const AddedTitle: string := "\nAdded:"
  const RemovedTitle: string := "\nRemoved:"
  const PriceTitle: string := "\nPrice changes:"

  function AddedLine(it: Item): string
  {
    Bullet + it.name + "  (" + CentsToStr(it.priceCents, it.currency) + ")  " + it.productUrl
  }

  function RemovedLine(r: Removal): string
  {
    Bullet + r.name
  }

  function PriceLine(pc: PriceChangeEntry): string
  {
    Bullet + pc.item.name + ": " + CentsToStr(pc.before, pc.item.currency) + " \U{2192} " +
    CentsToStr(pc.after, pc.item.currency)
  }

  /** `line` is a bullet naming `name`: the bullet mark, then the name. */
  predicate NamedBullet(line: string, name: string)
  {
    IsBullet(line) && |Bullet| + |name| <= |line| && line[..|Bullet|] == Bullet && line[|Bullet|..|Bullet| + |name|] == name
  }

  /** The bullet mark followed by `name` is a bullet naming it. */
  lemma NamedBulletBase(name: string)
    ensures NamedBullet(Bullet + name, name)
  {
    assert (Bullet + name)[..|Bullet|] == Bullet;
    assert (Bullet + name)[|Bullet|..|Bullet| + |name|] == name;
  }

  /** Text appended to a bullet leaves its head alone. */
  lemma NamedBulletExtend(head: string, name: string, tail: string)
    requires NamedBullet(head, name)
    ensures NamedBullet(head + tail, name)
  {
    var k := |Bullet| + |name|;
    assert (head + tail)[..k] == head[..k];
    assert (head + tail)[..|Bullet|] == head[..k][..|Bullet|];
    assert (head + tail)[|Bullet|..k] == head[..k][|Bullet|..];
    assert head[..|Bullet|] == head[..k][..|Bullet|];
    assert head[|Bullet|..k] == head[..k][|Bullet|..];
  }

  /** `a + b` ends with `b`. */
  lemma EndsWithPart(a: string, b: string)
    ensures |b| <= |a + b| && (a + b)[|a + b| - |b|..] == b
  {
    assert (a + b)[|a|..] == b;
  }

  /** An added record's bullet names it and ends with its product URL. */
  lemma AddedLineShape(it: Item)
    ensures NamedBullet(AddedLine(it), it.name)
    ensures var line := AddedLine(it); line[|line| - |it.productUrl|..] == it.productUrl
  {
    var price := CentsToStr(it.priceCents, it.currency);
    NamedBulletBase(it.name);
    NamedBulletExtend(Bullet + it.name, it.name, "  (");
    NamedBulletExtend(Bullet + it.name + "  (", it.name, price);
    NamedBulletExtend(Bullet + it.name + "  (" + price, it.name, ")  ");
    NamedBulletExtend(Bullet + it.name + "  (" + price + ")  ", it.name, it.productUrl);
    EndsWithPart(Bullet + it.name + "  (" + price + ")  ", it.productUrl);
  }

  /** A removal's bullet is the mark followed by the stored name and nothing else. */
  lemma RemovedLineShape(r: Removal)
    ensures NamedBullet(RemovedLine(r), r.name)
    ensures RemovedLine(r)[|Bullet|..] == r.name
  {
    NamedBulletBase(r.name);
  }

  /** A price change's bullet names the record and ends with the new price. */
  lemma PriceLineShape(pc: PriceChangeEntry)
    ensures NamedBullet(PriceLine(pc), pc.item.name)
    ensures var line, after := PriceLine(pc), CentsToStr(pc.after, pc.item.currency);
            line[|line| - |after|..] == after
  {
    var name := pc.item.name;
    var before, after := CentsToStr(pc.before, pc.item.currency), CentsToStr(pc.after, pc.item.currency);
    NamedBulletBase(name);
    NamedBulletExtend(Bullet + name, name, ": ");
    NamedBulletExtend(Bullet + name + ": ", name, before);
    NamedBulletExtend(Bullet + name + ": " + before, name, " \U{2192} ");
    NamedBulletExtend(Bullet + name + ": " + before + " \U{2192} ", name, after);
    EndsWithPart(Bullet + name + ": " + before + " \U{2192} ", after);
  }

  /** A section: its title and one bullet per entry, or nothing when there are no entries. */
  function Section(title: string, bullets: seq<string>): (lines: seq<string>)
    ensures bullets == [] ==> lines == []
    ensures bullets != [] ==> |lines| == 1 + |bullets| && lines[0] == title && lines[1..] == bullets
  {
    if bullets == [] then [] else [title] + bullets
  }

  /** The lines of `summarize_changes`, before joining. */
  function SummaryLines(wid: string, added: seq<Item>, removed: seq<Removal>,
                        changes: seq<PriceChangeEntry>): (lines: seq<string>)
    ensures |lines| >= 1 && lines[0] == "Wishlist: " + wid
    ensures added == [] && removed == [] && changes == [] ==> lines == ["Wishlist: " + wid]
  {
    ["Wishlist: " + wid]
    + Section(AddedTitle, AddedLines(added))
    + Section(RemovedTitle, RemovedLines(removed))
    + Section(PriceTitle, PriceLines(changes))
  }

  /** The width of `lines` when each is followed by `sep`: where the next line starts in the joined text. */
  function Width(lines: seq<string>, sep: string): nat
  {
    if lines == [] then 0 else Width(lines[..|lines| - 1], sep) + |lines[|lines| - 1]| + |sep|
  }

  /** `sep.join(lines)`: every line followed by `sep`, except the last. */
  function Join(lines: seq<string>, sep: string): (s: string)
    ensures lines == [] ==> s == ""
    ensures lines != [] ==> |s| + |sep| == Width(lines, sep)
    ensures lines != [] ==> |s| >= |lines[0]| && s[..|lines[0]|] == lines[0]
  {
    if lines == [] then ""
    else if |lines| == 1 then lines[0]
    else Join(lines[..|lines| - 1], sep) + sep + lines[|lines| - 1]
  }

  /** `line` occurs in `body` starting at `at`. */
  predicate OccursAt(body: string, line: string, at: nat)
  {
    at + |line| <= |body| && body[at..at + |line|] == line
  }

  /** `line` occurs somewhere in `body`. */
  ghost predicate Occurs(body: string, line: string)
  {
    exists at: nat :: OccursAt(body, line, at)
  }

  /** An occurrence survives appending text after it. */
  lemma OccursInPrefix(body: string, more: string, line: string, at: nat)
    requires OccursAt(body, line, at)
    ensures OccursAt(body + more, line, at)
  {
    assert (body + more)[at..at + |line|] == body[at..at + |line|];
  }

  /** In `a + b`, `b` occurs right after `a`. */
  lemma OccursAfter(a: string, b: string)
    ensures OccursAt(a + b, b, |a|)
  {
    assert (a + b)[|a|..|a| + |b|] == b;
  }

  /** Line `k` stands in the joined text at the width of the lines before it. */
  lemma {:induction false} JoinLineAt(lines: seq<string>, sep: string, k: nat)
    requires k < |lines|
    ensures OccursAt(Join(lines, sep), lines[k], Width(lines[..k], sep))
    decreases |lines|
  {
    var n := |lines| - 1;
    if n == 0 {
      assert lines[..k] == [];
      OccursAfter([], lines[0]);
      assert [] + lines[0] == lines[0];
    } else {
      var init := lines[..n];
      var j := Join(init, sep);
      assert Join(lines, sep) == (j + sep) + lines[n];
      if k == n {
        assert lines[..k] == init;
        OccursAfter(j + sep, lines[n]);
      } else {
        JoinLineAt(init, sep, k);
        assert init[..k] == lines[..k] && init[k] == lines[k];
        OccursInPrefix(j, sep + lines[n], lines[k], Width(lines[..k], sep));
        assert j + (sep + lines[n]) == (j + sep) + lines[n];
      }
    }
  }

  /** Every line but the last is followed by `sep` in the joined text. */
  lemma {:induction false} JoinSepAt(lines: seq<string>, sep: string, k: nat)
    requires k + 1 < |lines|
    ensures OccursAt(Join(lines, sep), sep, Width(lines[..k], sep) + |lines[k]|)
    decreases |lines|
  {
    var n := |lines| - 1;
    var init := lines[..n];
    var j := Join(init, sep);
    assert Join(lines, sep) == (j + sep) + lines[n];
    assert init[..k] == lines[..k] && init[k] == lines[k];
    var at := Width(lines[..k], sep) + |lines[k]|;
    if k + 1 < n {
      JoinSepAt(init, sep, k);
      OccursInPrefix(j, sep + lines[n], sep, at);
      assert j + (sep + lines[n]) == (j + sep) + lines[n];
    } else {
      assert init[..k + 1] == init && init[..k + 1][..k] == lines[..k];
      assert at == |j|;
      OccursAfter(j, sep);
      OccursInPrefix(j + sep, lines[n], sep, |j|);
    }
  }

  /** Line `k` of a join and the separator after it, when it is not the last line. */
  lemma JoinLayout(lines: seq<string>, sep: string, k: nat)
    requires k < |lines|
    ensures OccursAt(Join(lines, sep), lines[k], Width(lines[..k], sep))
    ensures k + 1 < |lines| ==> OccursAt(Join(lines, sep), sep, Width(lines[..k], sep) + |lines[k]|)
  {
    JoinLineAt(lines, sep, k);
    if k + 1 < |lines| {
      JoinSepAt(lines, sep, k);
    }
  }

  /** `summarize_changes`. */
  function Summarize(wid: string, added: seq<Item>, removed: seq<Removal>, changes: seq<PriceChangeEntry>): (body: string)
    ensures var header := "Wishlist: " + wid;
            |body| >= |header| && body[..|header|] == header
    ensures |body| + 1 == Width(SummaryLines(wid, added, removed, changes), "\n")
  {
    Join(SummaryLines(wid, added, removed, changes), "\n")
  }

  /**
   * The message is its lines joined by newlines: line `k` stands at the width
   * of the lines before it, and each line but the last is followed by a newline.
   */
  lemma MessageLayout(wid: string, added: seq<Item>, removed: seq<Removal>, changes: seq<PriceChangeEntry>, k: nat)
    requires k < |SummaryLines(wid, added, removed, changes)|
    ensures var lines := SummaryLines(wid, added, removed, changes);
            OccursAt(Summarize(wid, added, removed, changes), lines[k], Width(lines[..k], "\n"))
    ensures var lines := SummaryLines(wid, added, removed, changes);
            k + 1 < |lines| ==> OccursAt(Summarize(wid, added, removed, changes), "\n", Width(lines[..k], "\n") + |lines[k]|)
  {
    JoinLayout(SummaryLines(wid, added, removed, changes), "\n", k);
  }

  /** Every line of the summary occurs in the message. */
  lemma LineInMessage(wid: string, added: seq<Item>, removed: seq<Removal>, changes: seq<PriceChangeEntry>, line: string)
    requires line in SummaryLines(wid, added, removed, changes)
    ensures Occurs(Summarize(wid, added, removed, changes), line)
  {
    var lines := SummaryLines(wid, added, removed, changes);
    var k :| 0 <= k < |lines| && lines[k] == line;
    MessageLayout(wid, added, removed, changes, k);
  }

  /** Every added record, removal and price change has its bullet in the message itself. */
  lemma BulletsInMessage(wid: string, added: seq<Item>, removed: seq<Removal>, changes: seq<PriceChangeEntry>)
    ensures forall k :: 0 <= k < |added| ==> Occurs(Summarize(wid, added, removed, changes), AddedLine(added[k]))
    ensures forall k :: 0 <= k < |removed| ==> Occurs(Summarize(wid, added, removed, changes), RemovedLine(removed[k]))
    ensures forall k :: 0 <= k < |changes| ==> Occurs(Summarize(wid, added, removed, changes), PriceLine(changes[k]))
  {
    AddedListed(wid, added, removed, changes);
    RemovedListed(wid, added, removed, changes);
    PriceChangeListed(wid, added, removed, changes);
    forall k | 0 <= k < |added|
      ensures Occurs(Summarize(wid, added, removed, changes), AddedLine(added[k]))
    {
      LineInMessage(wid, added, removed, changes, AddedLine(added[k]));
    }
    forall k | 0 <= k < |removed|
      ensures Occurs(Summarize(wid, added, removed, changes), RemovedLine(removed[k]))
    {
      LineInMessage(wid, added, removed, changes, RemovedLine(removed[k]));
    }
    forall k | 0 <= k < |changes|
      ensures Occurs(Summarize(wid, added, removed, changes), PriceLine(changes[k]))
    {
      LineInMessage(wid, added, removed, changes, PriceLine(changes[k]));
    }
  }

  /** Bullets begin with two spaces, titles with a newline, so neither is mistaken for the other. */
  predicate IsBullet(line: string)
  {
    |line| > 0 && line[0] == ' '
  }

  function AddedLines(added: seq<Item>): (lines: seq<string>)
    ensures |lines| == |added| && forall k :: 0 <= k < |added| ==> lines[k] == AddedLine(added[k])
  {
    seq(|added|, i requires 0 <= i < |added| => AddedLine(added[i]))
  }

  function RemovedLines(removed: seq<Removal>): (lines: seq<string>)
    ensures |lines| == |removed| && forall k :: 0 <= k < |removed| ==> lines[k] == RemovedLine(removed[k])
  {
    seq(|removed|, i requires 0 <= i < |removed| => RemovedLine(removed[i]))
  }

  function PriceLines(changes: seq<PriceChangeEntry>): (lines: seq<string>)
    ensures |lines| == |changes| && forall k :: 0 <= k < |changes| ==> lines[k] == PriceLine(changes[k])
  {
    seq(|changes|, i requires 0 <= i < |changes| => PriceLine(changes[i]))
  }

  /** A line that begins with a newline is one of the three titles, standing at its section's head. */
  lemma TitleLine(wid: string, a: seq<string>, r: seq<string>, p: seq<string>, i: nat)
    requires forall k :: 0 <= k < |a| ==> IsBullet(a[k])
    requires forall k :: 0 <= k < |r| ==> IsBullet(r[k])
    requires forall k :: 0 <= k < |p| ==> IsBullet(p[k])
    requires i < 1 + |Section(AddedTitle, a)| + |Section(RemovedTitle, r)| + |Section(PriceTitle, p)|
    ensures var sa, sr := Section(AddedTitle, a), Section(RemovedTitle, r);
            var lines := ["Wishlist: " + wid] + sa + sr + Section(PriceTitle, p);
            |lines[i]| > 0 && lines[i][0] == '\n' ==>
            || (a != [] && i == 1 && lines[i] == AddedTitle)
            || (r != [] && i == 1 + |sa| && lines[i] == RemovedTitle)
            || (p != [] && i == 1 + |sa| + |sr| && lines[i] == PriceTitle)
  {
    var sa, sr, sp := Section(AddedTitle, a), Section(RemovedTitle, r), Section(PriceTitle, p);
    var lines := ["Wishlist: " + wid] + sa + sr + sp;
    var n1, n2 := 1 + |sa|, 1 + |sa| + |sr|;
    if i == 0 {
      assert lines[i][0] == 'W';
    } else if i < n1 {
      assert lines[i] == sa[i - 1];
      if i > 1 { assert IsBullet(a[i - 2]); }
    } else if i < n2 {
      assert lines[i] == sr[i - n1];
      if i > n1 { assert IsBullet(r[i - n1 - 1]); }
    } else {
      assert lines[i] == sp[i - n2];
      if i > n2 { assert IsBullet(p[i - n2 - 1]); }
    }
  }

  /**
   * Where the titles can stand: the Added title only right after the header,
   * the Removed title only after the Added section, the Price changes title
   * only after both; each stands there exactly when its list is non-empty.
   */
  lemma TitlePositions(wid: string, added: seq<Item>, removed: seq<Removal>, changes: seq<PriceChangeEntry>)
    ensures var lines := SummaryLines(wid, added, removed, changes);
            var n1 := 1 + |Section(AddedTitle, AddedLines(added))|;
            var n2 := n1 + |Section(RemovedTitle, RemovedLines(removed))|;
            && (forall i :: 0 <= i < |lines| && lines[i] == AddedTitle ==> i == 1)
            && (forall i :: 0 <= i < |lines| && lines[i] == RemovedTitle ==> i == n1)
            && (forall i :: 0 <= i < |lines| && lines[i] == PriceTitle ==> i == n2)
            && (added != [] ==> lines[1] == AddedTitle)
            && (removed != [] ==> n1 < |lines| && lines[n1] == RemovedTitle)
            && (changes != [] ==> n2 < |lines| && lines[n2] == PriceTitle)
  {
    var a, r, p := AddedLines(added), RemovedLines(removed), PriceLines(changes);
    var sa, sr, sp := Section(AddedTitle, a), Section(RemovedTitle, r), Section(PriceTitle, p);
    var lines := SummaryLines(wid, added, removed, changes);
    var n1, n2 := 1 + |sa|, 1 + |sa| + |sr|;
    assert lines == ["Wishlist: " + wid] + sa + sr + sp;
    assert AddedTitle[1] == 'A' && RemovedTitle[1] == 'R' && PriceTitle[1] == 'P';
    forall i | 0 <= i < |lines| && |lines[i]| > 1 && lines[i][0] == '\n'
      ensures lines[i][1] == 'A' ==> i == 1
      ensures lines[i][1] == 'R' ==> i == n1
      ensures lines[i][1] == 'P' ==> i == n2
    {
      TitleLine(wid, a, r, p, i);
    }
    if removed != [] { assert lines[n1] == sr[0]; }
    if changes != [] { assert lines[n2] == sp[0]; }
  }

  /**
   * The header comes first; a section title is present exactly when its
   * list is non-empty, and the sections appear in the order Added,
   * Removed, Price changes, with one bullet per entry.
   */
  lemma SummaryLayout(wid: string, added: seq<Item>, removed: seq<Removal>, changes: seq<PriceChangeEntry>)
    ensures var lines := SummaryLines(wid, added, removed, changes);
            && lines[0] == "Wishlist: " + wid
            && (AddedTitle in lines <==> added != [])
            && (RemovedTitle in lines <==> removed != [])
            && (PriceTitle in lines <==> changes != [])
            && |lines| == 1 + (if added == [] then 0 else 1 + |added|)
                            + (if removed == [] then 0 else 1 + |removed|)
                            + (if changes == [] then 0 else 1 + |changes|)
            && (forall i, j :: 0 <= i < |lines| && 0 <= j < |lines| && lines[i] == AddedTitle && lines[j] == RemovedTitle ==> i < j)
            && (forall i, j :: 0 <= i < |lines| && 0 <= j < |lines| && lines[i] == RemovedTitle && lines[j] == PriceTitle ==> i < j)
  {
    TitlePositions(wid, added, removed, changes);
  }

  /** A bullet of a section appears among the lines around it. */
  lemma InSection(pre: seq<string>, title: string, bullets: seq<string>, post: seq<string>, k: nat)
    requires k < |bullets|
    ensures bullets[k] in pre + Section(title, bullets) + post
  {
    assert (pre + Section(title, bullets) + post)[|pre| + 1 + k] == bullets[k];
  }

  /** Every added record has its bullet line. */
  lemma AddedListed(wid: string, added: seq<Item>, removed: seq<Removal>, changes: seq<PriceChangeEntry>)
    ensures forall k :: 0 <= k < |added| ==> AddedLine(added[k]) in SummaryLines(wid, added, removed, changes)
  {
    var a := AddedLines(added);
    var head := ["Wishlist: " + wid] + Section(AddedTitle, a) + Section(RemovedTitle, RemovedLines(removed));
    assert SummaryLines(wid, added, removed, changes) == head + Section(PriceTitle, PriceLines(changes));
    forall k | 0 <= k < |added|
      ensures AddedLine(added[k]) in head
    {
      InSection(["Wishlist: " + wid], AddedTitle, a, Section(RemovedTitle, RemovedLines(removed)), k);
    }
  }

  /** Every removal has its bullet line. */
  lemma RemovedListed(wid: string, added: seq<Item>, removed: seq<Removal>, changes: seq<PriceChangeEntry>)
    ensures forall k :: 0 <= k < |removed| ==> RemovedLine(removed[k]) in SummaryLines(wid, added, removed, changes)
  {
    var r := RemovedLines(removed);
    var pre := ["Wishlist: " + wid] + Section(AddedTitle, AddedLines(added));
    var post := Section(PriceTitle, PriceLines(changes));
    assert SummaryLines(wid, added, removed, changes) == pre + Section(RemovedTitle, r) + post;
    forall k | 0 <= k < |removed|
      ensures RemovedLine(removed[k]) in pre + Section(RemovedTitle, r) + post
    {
      InSection(pre, RemovedTitle, r, post, k);
    }
  }

  /** Every price change has its bullet line. */
  lemma PriceChangeListed(wid: string, added: seq<Item>, removed: seq<Removal>, changes: seq<PriceChangeEntry>)
    ensures forall k :: 0 <= k < |changes| ==> PriceLine(changes[k]) in SummaryLines(wid, added, removed, changes)
  {
    var p := PriceLines(changes);
    var pre := ["Wishlist: " + wid] + Section(AddedTitle, AddedLines(added)) + Section(RemovedTitle, RemovedLines(removed));
    assert SummaryLines(wid, added, removed, changes) == pre + Section(PriceTitle, p) + [];
    forall k | 0 <= k < |changes|
      ensures PriceLine(changes[k]) in pre + Section(PriceTitle, p) + []
    {
      InSection(pre, PriceTitle, p, [], k);
    }
  }
}
