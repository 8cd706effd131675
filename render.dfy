/** The two renderers of the user list: a plain-text block with one line per user,
    and an HTML table with one row per user. Both build their output by appending
    inside a loop over the users. esc stands for esc_html and fmt for the date
    formatting; both are left uninterpreted. */
module Render {
  import opened Php
  import opened Fields

  /** The concatenation, in order, of one piece of text per element. */
  function Rendered<T>(xs: seq<T>, piece: T -> string): string
  {
    if xs == [] then "" else Rendered(xs[..|xs| - 1], piece) + piece(xs[|xs| - 1])
  }

  lemma {:induction false} RenderedAppend<T>(xs: seq<T>, ys: seq<T>, piece: T -> string)
    ensures Rendered(xs + ys, piece) == Rendered(xs, piece) + Rendered(ys, piece)
  {
    if ys == [] {
      assert xs + ys == xs;
    } else {
      var n := |ys| - 1;
      assert (xs + ys)[..|xs + ys| - 1] == xs + ys[..n];
      RenderedAppend(xs, ys[..n], piece);
    }
  }

  /** Order and multiplicity: the text for element i sits between the text for the
      elements before it and the text for the elements after it. Not recursive: automatic
      induction is switched off only because its hypotheses make this proof run out of
      resource. */
  lemma {:induction false} RenderedAt<T>(xs: seq<T>, i: int, piece: T -> string)
    requires 0 <= i < |xs|
    ensures Rendered(xs, piece) == Rendered(xs[..i], piece) + piece(xs[i]) + Rendered(xs[i + 1..], piece)
  {
    var front := xs[..i + 1];
    assert front == xs[..i] + [xs[i]];
    assert front + xs[i + 1..] == xs;
    RenderedAppend(front, xs[i + 1..], piece);
    RenderedSnoc(xs[..i], xs[i], piece);
  }

  lemma PrefixSnoc<T>(xs: seq<T>, i: int)
    requires 0 <= i < |xs|
    ensures xs[..i + 1] == xs[..i] + [xs[i]]
  {
  }

  lemma RenderedSnoc<T>(xs: seq<T>, x: T, piece: T -> string)
    ensures Rendered(xs + [x], piece) == Rendered(xs, piece) + piece(x)
  {
    assert (xs + [x])[..|xs|] == xs;
  }

  // ---------------------------------------------------------------- plain list

  /** One line of the plain list: "login (email) - roles" and a line feed. */
  function ListLine(u: User, esc: string -> string): string
  {
    esc(Login(u)) + " (" + esc(Email(u)) + ") - " + esc(RoleNames(u)) + "\n"
  }

  /** The list text before trimming. */
  function ListText(users: seq<User>, esc: string -> string): string
  {
    Rendered(users, u => ListLine(u, esc))
  }

  /** format_users_list */
  method FormatUsersList(users: seq<User>, esc: string -> string) returns (r: string)
    ensures r == Trim(ListText(users, esc))
  {
    var output := "";
    for i := 0 to |users|
      invariant output == ListText(users[..i], esc)
    {
      var user := users[i];
      var login := Login(user);
      var email := Email(user);
      var roleNames := RoleNames(user);
      PrefixSnoc(users, i);
      RenderedSnoc(users[..i], user, u => ListLine(u, esc));
      var line := esc(login) + " (" + esc(email) + ") - " + esc(roleNames) + "\n";
      output := output + line;
    }
    assert users[..|users|] == users;
    r := Trim(output);
  }

  function CountChar(s: string, c: char): nat
  {
    if s == [] then 0 else CountChar(s[..|s| - 1], c) + (if s[|s| - 1] == c then 1 else 0)
  }

  lemma {:induction false} CountCharAppend(s: string, t: string, c: char)
    ensures CountChar(s + t, c) == CountChar(s, c) + CountChar(t, c)
  {
    if t == [] {
      assert s + t == s;
    } else {
      var n := |t| - 1;
      assert (s + t)[..|s + t| - 1] == s + t[..n];
      CountCharAppend(s, t[..n], c);
    }
  }

  /** One line per user: when no user's escaped login, email or role text holds a line
      feed, the untrimmed list holds exactly as many line feeds as there are users. */
  lemma {:induction false} ListLinePerUser(users: seq<User>, esc: string -> string)
    requires forall u | u in users ::
               '\n' !in esc(Login(u)) && '\n' !in esc(Email(u)) && '\n' !in esc(RoleNames(u))
    ensures CountChar(ListText(users, esc), '\n') == |users|
  {
    if users != [] {
      var n := |users| - 1;
      var u := users[n];
      assert u in users;
      PrefixMembers(users, n);
      ListLinePerUser(users[..n], esc);
      var a, b, c := esc(Login(u)), esc(Email(u)), esc(RoleNames(u));
      NoLineFeeds(a);
      NoLineFeeds(b);
      NoLineFeeds(c);
      NoLineFeeds(" (");
      NoLineFeeds(") - ");
      CountCharAppend(ListText(users[..n], esc), ListLine(u, esc), '\n');
      CountCharAppend(a + " (" + b + ") - " + c, "\n", '\n');
      CountCharAppend(a + " (" + b + ") - ", c, '\n');
      CountCharAppend(a + " (" + b, ") - ", '\n');
      CountCharAppend(a + " (", b, '\n');
      CountCharAppend(a, " (", '\n');
      assert CountChar("\n", '\n') == 1 by {
        assert "\n"[..0] == [];
      }
    }
  }

  lemma PrefixMembers<T>(xs: seq<T>, n: int)
    requires 0 <= n <= |xs|
    ensures forall v | v in xs[..n] :: v in xs
  {
  }

  lemma {:induction false} NoLineFeeds(s: string)
    requires '\n' !in s
    ensures CountChar(s, '\n') == 0
  {
    if s != [] {
      assert s[|s| - 1] in s;
      var n := |s| - 1;
      assert forall k :: 0 <= k < n ==> s[..n][k] == s[k];
      NoLineFeeds(s[..n]);
    }
  }

  /** With no users the list is the empty string. */
  lemma ListOfNoUsers(esc: string -> string)
    ensures Trim(ListText([], esc)) == ""
  {
  }

  /** The list text of at least one user never trims to nothing: it keeps the
      ") - " separator of every line. */
  lemma ListKeepsSeparator(users: seq<User>, esc: string -> string)
    requires users != []
    ensures ')' in Trim(ListText(users, esc))
  {
    var n := |users| - 1;
    var u := users[n];
    assert users == users[..n] + [u];
    RenderedSnoc(users[..n], u, v => ListLine(v, esc));
    var front, line := ListText(users[..n], esc), ListLine(u, esc);
    var k := |esc(Login(u))| + 2 + |esc(Email(u))|;
    LineSeparator(u, esc);
    assert (front + line)[|front| + k] == ')';
    TrimKeeps(front + line, |front| + k);
  }

  /** The ')' closing the email sits right after the login, " (" and the email. */
  lemma LineSeparator(u: User, esc: string -> string)
    ensures |esc(Login(u))| + 2 + |esc(Email(u))| < |ListLine(u, esc)|
    ensures ListLine(u, esc)[|esc(Login(u))| + 2 + |esc(Email(u))|] == ')'
  {
    var a, b := esc(Login(u)), esc(Email(u));
    var rest := esc(RoleNames(u)) + "\n";
    assert ListLine(u, esc) == (a + " (" + b) + (") - " + rest);
  }

  /** The user of the worked examples: login "alice", email "a@x.com", the roles
      ["editor", "author"] under the alternative name roles, and no registration date. */
  const Alice := User(Some("alice"), None, None, None, Some("a@x.com"), None, None, None,
                      None, Some(RoleList(["editor", "author"])), None, None)

  /** The worked example of the list format: with an escaper that changes nothing,
      Alice's list is the single line "alice (a@x.com) - editor, author". */
  lemma ListExample(esc: string -> string)
    requires forall s :: esc(s) == s
    ensures Trim(ListText([Alice], esc)) == "alice" + " (" + "a@x.com" + ") - " + "editor, author"
  {
    ExampleListLine(esc);
    ListOfOne(Alice, esc);
    var line := "alice" + " (" + "a@x.com" + ") - " + "editor, author";
    assert Trimmed(line) by {
      assert line[0] == 'a';
      assert line[|line| - 1] == 'r';
    }
    TrimsLineFeed(line);
  }

  lemma ExampleListLine(esc: string -> string)
    requires forall s :: esc(s) == s
    ensures ListLine(Alice, esc) == "alice" + " (" + "a@x.com" + ") - " + "editor, author" + "\n"
  {
    AliceFields();
  }

  /** Alice's login and email come from the first candidates, her roles from the
      alternative name roles, joined with ", ". */
  lemma AliceFields()
    ensures Login(Alice) == "alice" && Email(Alice) == "a@x.com"
    ensures RoleNames(Alice) == "editor, author"
  {
    assert Implode(", ", ["editor", "author"]) == "editor, author" by {
      assert ["editor", "author"][1..] == ["author"];
    }
  }

  /** The list of a single user is that user's line. */
  lemma ListOfOne(u: User, esc: string -> string)
    ensures ListText([u], esc) == ListLine(u, esc)
  {
    RenderedSnoc([], u, v => ListLine(v, esc));
    assert [] + [u] == [u];
  }


  /** trim() drops the final line feed after the last list line. */
  lemma TrimsLineFeed(line: string)
    requires Trimmed(line)
    ensures Trim(line + "\n") == line
  {
    assert [] + line + "\n" == line + "\n";
    TrimUnique([], line, "\n");
  }



  // ---------------------------------------------------------------- HTML table

  const CellStyle := "padding: 8px; border: 1px solid #dee2e6;"

  /** The opening tag of the table and of its header row. */
  const TableOpen := "<table class=\"mainwp-users-table\" style=\"width: 100%; border-collapse: collapse; margin: 15px 0;\">"
                     + "<thead><tr style=\"background-color: #f8f9fa;\">"

  function HeaderCell(title: string): string
  {
    "<th style=\"" + CellStyle + " text-align: left;\">" + title + "</th>"
  }

  /** The fixed header: the four column titles, then the opening of the body. */
  const TableHeader := TableOpen
                       + HeaderCell("Username") + HeaderCell("Email")
                       + HeaderCell("Role(s)") + HeaderCell("Registration Date")
                       + "</tr></thead><tbody>"

  const TableFooter := "</tbody></table>"

  function Cell(text: string): string
  {
    "<td style=\"" + CellStyle + "\">" + text + "</td>"
  }

  /** The four cell contents of a user's row, in column order. */
  function Cells(u: User, esc: string -> string, fmt: string -> string): seq<string>
  {
    [esc(Login(u)), esc(Email(u)), esc(RoleNames(u)), esc(RegistrationDate(u, fmt))]
  }

  /** One table row: four <td> cells inside <tr> ... </tr>. */
  function TableRow(u: User, esc: string -> string, fmt: string -> string): string
  {
    "<tr>" + Cell(esc(Login(u))) + Cell(esc(Email(u))) + Cell(esc(RoleNames(u)))
    + Cell(esc(RegistrationDate(u, fmt))) + "</tr>"
  }

  function TableRows(users: seq<User>, esc: string -> string, fmt: string -> string): string
  {
    Rendered(users, u => TableRow(u, esc, fmt))
  }

  /** format_users_table */
  method FormatUsersTable(users: seq<User>, esc: string -> string, fmt: string -> string) returns (r: string)
    ensures r == TableHeader + TableRows(users, esc, fmt) + TableFooter
  {
    var output := TableHeader;
    ghost var header := output;
    for i := 0 to |users|
      invariant output == header + TableRows(users[..i], esc, fmt)
    {
      var user := users[i];
      var login := Login(user);
      var email := Email(user);
      var roleNames := RoleNames(user);
      var regDate := RegistrationDate(user, fmt);
      PrefixSnoc(users, i);
      RenderedSnoc(users[..i], user, u => TableRow(u, esc, fmt));
      var row := "<tr>" + Cell(esc(login)) + Cell(esc(email)) + Cell(esc(roleNames))
                 + Cell(esc(regDate)) + "</tr>";
      Associative(header, TableRows(users[..i], esc, fmt), row);
      output := output + row;
    }
    assert users[..|users|] == users;
    output := output + TableFooter;
    r := output;
  }

  /** A row holds exactly the user's four cells, in column order: the escaped login,
      email, role text and registration date. */
  lemma RowCells(u: User, esc: string -> string, fmt: string -> string)
    ensures TableRow(u, esc, fmt) == "<tr>" + Rendered(Cells(u, esc, fmt), Cell) + "</tr>"
  {
    FramedFour(esc(Login(u)), esc(Email(u)), esc(RoleNames(u)), esc(RegistrationDate(u, fmt)),
               Cell, "<tr>", "</tr>");
  }

  /** Four pieces between an opening and a closing text. */
  lemma FramedFour<T>(a: T, b: T, c: T, d: T, piece: T -> string, open: string, close: string)
    ensures open + Rendered([a, b, c, d], piece) + close
         == open + piece(a) + piece(b) + piece(c) + piece(d) + close
  {
    RenderedSnoc([], a, piece);
    RenderedSnoc([a], b, piece);
    RenderedSnoc([a, b], c, piece);
    RenderedSnoc([a, b, c], d, piece);
    assert [] + [a] == [a];
    assert [a] + [b] == [a, b];
    assert [a, b] + [c] == [a, b, c];
    assert [a, b, c] + [d] == [a, b, c, d];
  }

  /** The table always opens with the fixed header and closes with the fixed footer;
      user i's row stands after the rows of the users before it and before the rows of
      the users after it. */
  lemma TableRowAt(users: seq<User>, i: int, esc: string -> string, fmt: string -> string)
    requires 0 <= i < |users|
    ensures TableHeader + TableRows(users, esc, fmt) + TableFooter ==
            TableHeader + TableRows(users[..i], esc, fmt) + TableRow(users[i], esc, fmt)
            + TableRows(users[i + 1..], esc, fmt) + TableFooter
  {
    RenderedAt(users, i, u => TableRow(u, esc, fmt));
    Framed(TableHeader, TableRows(users[..i], esc, fmt), TableRow(users[i], esc, fmt),
           TableRows(users[i + 1..], esc, fmt), TableFooter);
  }

  /** Concatenation regrouped as a lemma over plain strings: stated inline, next to the
      long header literal, the same step costs the solver far more. */
  lemma Associative(a: string, b: string, c: string)
    ensures (a + b) + c == a + (b + c)
  {
  }

  lemma Framed(h: string, a: string, x: string, b: string, f: string)
    ensures h + (a + x + b) + f == h + a + x + b + f
  {
  }

  /** With no users the table is exactly the header followed by the footer. */
  lemma TableOfNoUsers(esc: string -> string, fmt: string -> string)
    ensures TableHeader + TableRows([], esc, fmt) + TableFooter == TableHeader + TableFooter
  {
  }

  /** The worked example of the table format: Alice's row holds the cells alice,
      a@x.com, "editor, author" and N/A, in that order. */
  lemma TableExample(esc: string -> string, fmt: string -> string)
    requires forall s :: esc(s) == s
    ensures Cells(Alice, esc, fmt) == ["alice", "a@x.com", "editor, author", "N/A"]
  {
    assert Implode(", ", ["editor", "author"]) == "editor, author" by {
      assert ["editor", "author"][1..] == ["author"];
    }
  }

}
