/** S-expressions: the reader from a string and the printer. */
module Lisp {
  import opened Seqs

  /** A cell; atoms are strings of bytes, and NIL is also the empty list. */
  datatype Cell = Nil | Atom(name: string) | Cons(car: Cell, cdr: Cell)

  datatype Out<+T> = Ok(value: T, next: nat) | Err

  const NILSYMBOL := "NIL"

  /** The longest atom for which the reader's buffer has room. */
  const ATOM_MAX := 1024

  /** The byte that reads as the end of a file. */
  const EOF_BYTE := 255 as char

  predicate Divides(c: char) {
    c == '\n' || c == '\r' || c == '\t' || c == ';' || c == ' ' || c == '(' || c == ')'
  }

  predicate IsWhite(c: char) {
    c == ' ' || c == '\t' || c == '\n' || c == '\r'
  }

  // The printer.

  function Print(cell: Cell): string {
    match cell
    case Nil => NILSYMBOL
    case Atom(name) => name
    case Cons(car, cdr) => "(" + (Print(car) + (PrintCdr(cdr) + ")"))
  }

  function PrintCdr(cell: Cell): string {
    match cell
    case Nil => ""
    case Atom(name) => " " + name
    case Cons(car, cdr) => " " + (Print(car) + PrintCdr(cdr))
  }

  // The reader. The string ends with its first NUL, so `s` holds none.

  function SkipWhite(s: string, i: nat): (j: nat)
    requires i <= |s|
    ensures i <= j <= |s| && (j < |s| ==> !IsWhite(s[j]))
    decreases |s| - i
  {
    if i < |s| && IsWhite(s[i]) then SkipWhite(s, i + 1) else i
  }

  /** The characters of an atom up to a divider. */
  function AtomEnd(s: string, i: nat): (j: nat)
    requires i <= |s|
    ensures i <= j <= |s| && (j < |s| ==> Divides(s[j]))
    ensures forall k :: i <= k < j ==> !Divides(s[k])
    decreases |s| - i
  {
    if i < |s| && !Divides(s[i]) then AtomEnd(s, i + 1) else i
  }

  /** The closing quote, or the end of the string. */
  function QuoteEnd(s: string, i: nat): (j: nat)
    requires i <= |s|
    ensures i <= j <= |s| && (j < |s| ==> s[j] == '"')
    decreases |s| - i
  {
    if i < |s| && s[i] != '"' then QuoteEnd(s, i + 1) else i
  }

  /** myscanf_string: the atom at `i`. A quoted one ends on its closing quote, which is not passed. */
  function ScanAtom(s: string, i: nat): (r: Out<string>)
    requires i <= |s|
    ensures r.Ok? ==> i < r.next <= |s|
  {
    if i == |s| || Divides(s[i]) || s[i] == EOF_BYTE then Err
    else if s[i] == '"' then
      var j := QuoteEnd(s, i + 1);
      if j == |s| || j + 1 - i > ATOM_MAX then Err else Ok(s[i..j + 1], j)
    else
      var j := AtomEnd(s, i + 1);
      if j - i > ATOM_MAX then Err else Ok(s[i..j], j)
  }

  function ReadAtom(s: string, i: nat): (r: Out<Cell>)
    requires i <= |s|
    ensures r.Ok? ==> i < r.next <= |s|
  {
    var a := ScanAtom(s, i);
    if a.Err? then Err else Ok(if a.value == NILSYMBOL then Nil else Atom(a.value), a.next)
  }

  /** s_read_from_string. */
  function ReadFrom(s: string, i: nat): (r: Out<Cell>)
    requires i <= |s|
    ensures r.Ok? ==> i < r.next <= |s|
    decreases |s| - i, 0
  {
    var j := SkipWhite(s, i);
    if j == |s| then Err
    else if s[j] == '(' then ReadCar(s, j + 1)
    else ReadAtom(s, j)
  }

  /** s_read_car_string: behind an opening parenthesis, or in front of a further element. */
  function ReadCar(s: string, i: nat): (r: Out<Cell>)
    requires i <= |s|
    ensures r.Ok? ==> i < r.next <= |s|
    decreases |s| - i, 1
  {
    var j := SkipWhite(s, i);
    if j == |s| then Err
    else if s[j] == ')' then Ok(Nil, j + 1)
    else
      var a := ReadFrom(s, j);
      if a.Err? then Err
      else
        var d := ReadCdr(s, a.next);
        if d.Err? then Err else Ok(Cons(a.value, d.value), d.next)
  }

  /** s_read_cdr_string. */
  function ReadCdr(s: string, i: nat): (r: Out<Cell>)
    requires i <= |s|
    ensures r.Ok? ==> i < r.next <= |s|
    decreases |s| - i, 2
  {
    var j := SkipWhite(s, i);
    if j == |s| then Err
    else if s[j] == ')' then Ok(Nil, j + 1)
    else ReadCar(s, j)
  }

  /** Blanks, tabs and line ends are skipped, and nothing else. */
  lemma {:induction false} WhiteIs(s: string, i: nat)
    requires i <= |s|
    ensures var j := SkipWhite(s, i);
      (forall k :: i <= k < j ==> s[k] in " \t\n\r") && (j < |s| ==> s[j] !in " \t\n\r")
    decreases |s| - i
  {
    if i < |s| && IsWhite(s[i]) {
      WhiteIs(s, i + 1);
    }
  }

  /**
   * An atom goes on up to white space, a semicolon, a parenthesis or the end; a quoted one up to the closing quote.
   * There is none where one of these stands, at the byte 255 or behind a lonely quote, and none is longer than 1024.
   */
  lemma ScanIs(s: string, i: nat)
    requires i <= |s|
    ensures var r := ScanAtom(s, i);
      if r.Err? then
        || i == |s| || s[i] in "\n\r\t; ()" || s[i] as int == 255 || |s| - i > 1024
        || (s[i] == '"' && forall k :: i < k < |s| ==> s[k] != '"')
      else if s[i] == '"' then
        && r.next < |s| && s[r.next] == '"' && r.value == s[i..r.next + 1] && |r.value| <= 1024
        && (forall k :: i < k < r.next ==> s[k] != '"')
      else
        && r.value == s[i..r.next] && |r.value| <= 1024 && s[i] as int != 255
        && (forall k :: i <= k < r.next ==> s[k] !in "\n\r\t; ()")
        && (r.next < |s| ==> s[r.next] in "\n\r\t; ()")
  {
    if i < |s| && s[i] == '"' {
      QuoteIs(s, i + 1);
    }
    assert forall c: char :: Divides(c) <==> c in "\n\r\t; ()";
  }

  lemma {:induction false} QuoteIs(s: string, i: nat)
    requires i <= |s|
    ensures forall k :: i <= k < QuoteEnd(s, i) ==> s[k] != '"'
    decreases |s| - i
  {
    if i < |s| && s[i] != '"' {
      QuoteIs(s, i + 1);
    }
  }

  /** The atom NIL is the empty list, read and printed. */
  lemma NilIs(s: string, i: nat)
    requires i <= |s|
    ensures Print(Nil) == "NIL"
    ensures ReadAtom(s, i).Ok? <==> ScanAtom(s, i).Ok?
    ensures ReadAtom(s, i).Ok? ==>
              ReadAtom(s, i).next == ScanAtom(s, i).next
              && ReadAtom(s, i).value == if ScanAtom(s, i).value == "NIL" then Nil else Atom(ScanAtom(s, i).value)
  {
  }

  // The round trip.

  /** An atom that is read back as it was printed. */
  predicate SafeAtom(a: string) {
    && a != "" && a != NILSYMBOL && |a| <= ATOM_MAX && a[0] != '"' && a[0] != EOF_BYTE
    && forall k :: 0 <= k < |a| ==> !Divides(a[k]) && a[k] != '\0'
  }

  predicate Safe(cell: Cell) {
    match cell
    case Nil => true
    case Atom(name) => SafeAtom(name)
    case Cons(car, cdr) => Safe(car) && Safe(cdr)
  }

  /** Every list ends with NIL. */
  predicate Proper(cell: Cell) {
    cell.Cons? ==> Proper(cell.car) && Proper(cell.cdr) && !cell.cdr.Atom?
  }

  /** The tree with every atom in last place made an element of its list. */
  function Listed(cell: Cell): Cell {
    match cell
    case Nil => Nil
    case Atom(name) => cell
    case Cons(car, cdr) => Cons(Listed(car), ListedCdr(cdr))
  }

  function ListedCdr(cell: Cell): Cell {
    match cell
    case Nil => Nil
    case Atom(name) => Cons(cell, Nil)
    case Cons(car, cdr) => Cons(Listed(car), ListedCdr(cdr))
  }

  lemma {:induction false} ListedIfProper(cell: Cell)
    ensures Listed(cell) == cell <==> Proper(cell)
    ensures ListedCdr(cell) == cell <==> Proper(cell) && !cell.Atom?
  {
    if cell.Cons? {
      ListedIfProper(cell.car);
      ListedIfProper(cell.cdr);
    }
  }

  /** What a printed cell begins with: no white space, no closing parenthesis. */
  lemma PrintStarts(cell: Cell)
    requires Safe(cell)
    ensures Print(cell) != "" && !IsWhite(Print(cell)[0]) && Print(cell)[0] != ')'
  {
  }

  lemma {:induction false} AtomIs(s: string, i: nat, j: nat)
    requires i <= j <= |s| && (forall k :: i <= k < j ==> !Divides(s[k])) && (j < |s| ==> Divides(s[j]))
    ensures AtomEnd(s, i) == j
    decreases j - i
  {
    if i < j {
      AtomIs(s, i + 1, j);
    }
  }

  /** A safe atom, or NIL, in front of a divider or at the end. */
  lemma AtomBack(s: string, i: nat, a: string)
    requires Reads(s, i, a) && (SafeAtom(a) || a == NILSYMBOL)
    requires i + |a| <= |s| && (i + |a| < |s| ==> Divides(s[i + |a|]))
    ensures ReadFrom(s, i) == Ok(if a == NILSYMBOL then Nil else Atom(a), i + |a|)
  {
    hide Reads;
    ReadsSlice(s, i, a);
    forall k | i <= k < i + |a| ensures s[k] == a[k - i] {
      assert s[i..i + |a|][k - i] == s[k];
    }
    AtomIs(s, i + 1, i + |a|);
    assert SkipWhite(s, i) == i;
  }

  ghost predicate Divided(s: string, i: nat) {
    i <= |s| && (i < |s| ==> Divides(s[i]))
  }

  /** Reading what was printed gives the tree, with its last atoms made elements. */
  lemma {:induction false} ReadBack(s: string, i: nat, cell: Cell)
    requires Reads(s, i, Print(cell)) && Safe(cell) && Divided(s, i + |Print(cell)|)
    ensures i <= |s| && ReadFrom(s, i) == Ok(Listed(cell), i + |Print(cell)|)
    decreases |Print(cell)|, 0
  {
    hide Reads;
    ReadsSlice(s, i, Print(cell));
    match cell {
      case Nil => AtomBack(s, i, NILSYMBOL);
      case Atom(name) => AtomBack(s, i, name);
      case Cons(car, cdr) =>
        ReadsBoth(s, i, "(", Print(car) + (PrintCdr(cdr) + ")"));
        HeadAt(s, i, "(");
        assert SkipWhite(s, i) == i;
        CarBack(s, i + 1, car, cdr);
    }
  }

  lemma HeadAt(s: string, i: nat, t: string)
    requires Reads(s, i, t) && t != ""
    ensures i < |s| && s[i] == t[0]
  {
    hide Reads;
    ReadsSlice(s, i, t);
    assert s[i..i + |t|][0] == s[i];
  }

  /** The elements from one on. */
  lemma {:induction false} CarBack(s: string, i: nat, car: Cell, cdr: Cell)
    requires Reads(s, i, Print(car) + (PrintCdr(cdr) + ")")) && Safe(car) && Safe(cdr)
    ensures i <= |s| && ReadCar(s, i) == Ok(Cons(Listed(car), ListedCdr(cdr)), i + |Print(car)| + |PrintCdr(cdr)| + 1)
    decreases |Print(car)| + |PrintCdr(cdr)|, 1
  {
    hide Reads, Print, PrintCdr, Listed, ListedCdr;
    ReadsBoth(s, i, Print(car), PrintCdr(cdr) + ")");
    PrintStarts(car);
    HeadAt(s, i, Print(car));
    HeadAt(s, i + |Print(car)|, PrintCdr(cdr) + ")");
    CdrStarts(cdr);
    assert SkipWhite(s, i) == i;
    ReadBack(s, i, car);
    CdrBack(s, i + |Print(car)|, cdr);
  }

  lemma CdrStarts(cdr: Cell)
    ensures PrintCdr(cdr) + ")" != "" && Divides((PrintCdr(cdr) + ")")[0])
  {
  }

  lemma PrintAtom(name: string)
    ensures Print(Atom(name)) == name && PrintCdr(Atom(name)) == " " + name && PrintCdr(Nil) == ""
  {
  }

  lemma {:induction false} CdrBack(s: string, i: nat, cdr: Cell)
    requires Reads(s, i, PrintCdr(cdr) + ")") && Safe(cdr)
    ensures i <= |s| && ReadCdr(s, i) == Ok(ListedCdr(cdr), i + |PrintCdr(cdr)| + 1)
    decreases |PrintCdr(cdr)|, 1
  {
    hide Reads, Print;
    match cdr {
      case Nil =>
        assert "" + ")" == ")";
        HeadAt(s, i, ")");
        assert SkipWhite(s, i) == i;
      case Atom(name) =>
        PrintAtom(name);
        assert " " + name + ")" == " " + (name + ("" + ")"));
        ReadsBoth(s, i, " ", name + ("" + ")"));
        HeadAt(s, i, " ");
        HeadAt(s, i + 1, name + ("" + ")"));
        CarBack(s, i + 1, cdr, Nil);
        assert SkipWhite(s, i) == i + 1;
      case Cons(a, d) =>
        assert " " + (Print(a) + PrintCdr(d)) + ")" == " " + (Print(a) + (PrintCdr(d) + ")"));
        ReadsBoth(s, i, " ", Print(a) + (PrintCdr(d) + ")"));
        HeadAt(s, i, " ");
        PrintStarts(a);
        HeadAt(s, i + 1, Print(a) + (PrintCdr(d) + ")"));
        CarBack(s, i + 1, a, d);
        assert SkipWhite(s, i) == i + 1;
    }
  }

  /** Reading a printed tree gives the same tree exactly when its lists are proper. */
  lemma PrintRead(cell: Cell)
    requires Safe(cell)
    ensures ReadFrom(Print(cell), 0) == Ok(Listed(cell), |Print(cell)|)
    ensures ReadFrom(Print(cell), 0) == Ok(cell, |Print(cell)|) <==> Proper(cell)
  {
    ReadsEnd([], Print(cell));
    assert [] + Print(cell) == Print(cell);
    ReadBack(Print(cell), 0, cell);
    ListedIfProper(cell);
    hide *;
  }

  // The reader as a program that moves a pointer through the string.

  datatype Next = END | YES | NO

  class StringReader {
    const s: string
    var chp: nat

    ghost predicate Valid()
      reads this
    {
      chp <= |s|
    }

    constructor (s: string)
      ensures Valid() && this.s == s && chp == 0
    {
      this.s, chp := s, 0;
    }

    /** ifnextchar_string: skips white space and, if it is next, the character asked for. */
    method IfNextChar(c: char) returns (r: Next)
      requires Valid() && !IsWhite(c)
      modifies this`chp
      ensures Valid()
      ensures var j := SkipWhite(s, old(chp));
        if j == |s| then r == END
        else if s[j] == c then r == YES && chp == j + 1
        else r == NO && chp == j
    {
      while chp < |s| && IsWhite(s[chp])
        invariant Valid() && SkipWhite(s, chp) == SkipWhite(s, old(chp))
        decreases |s| - chp
      {
        chp := chp + 1;
      }
      if chp == |s| {
        return END;
      }
      if s[chp] == c {
        chp := chp + 1;
        return YES;
      }
      return NO;
    }

    /** myscanf_string, into a buffer of 1025 bytes. */
    method Scan() returns (r: Out<string>)
      requires Valid()
      modifies this`chp
      ensures Valid() && r == ScanAtom(s, old(chp)) && (r.Ok? ==> chp == r.next)
    {
      if chp == |s| || Divides(s[chp]) || s[chp] == EOF_BYTE {
        return Err;
      }
      if s[chp] == '"' {
        r := ScanQuoted();
      } else {
        r := ScanPlain();
      }
    }

    method ScanQuoted() returns (r: Out<string>)
      requires Valid() && chp < |s| && s[chp] == '"'
      modifies this`chp
      ensures Valid() && (r.Ok? ==> chp == r.next)
      ensures var i, j := old(chp), QuoteEnd(s, old(chp) + 1);
        r == if j == |s| || j + 1 - i > ATOM_MAX then Err else Ok(s[i..j + 1], j)
    {
      var buffer := [s[chp]];
      chp := chp + 1;
      while chp < |s| && s[chp] != '"'
        invariant old(chp) < chp <= |s| && buffer == s[old(chp)..chp]
        invariant QuoteEnd(s, chp) == QuoteEnd(s, old(chp) + 1)
        decreases |s| - chp
      {
        buffer := buffer + [s[chp]];
        chp := chp + 1;
      }
      if chp == |s| {
        return Err;
      }
      buffer := buffer + [s[chp]];
      assert buffer == s[old(chp)..chp + 1];
      if |buffer| > ATOM_MAX {
        return Err;
      }
      return Ok(buffer, chp);
    }

    method ScanPlain() returns (r: Out<string>)
      requires Valid() && chp < |s|
      modifies this`chp
      ensures Valid() && (r.Ok? ==> chp == r.next)
      ensures var i, j := old(chp), AtomEnd(s, old(chp) + 1);
        r == if j - i > ATOM_MAX then Err else Ok(s[i..j], j)
    {
      var buffer := [s[chp]];
      chp := chp + 1;
      while chp < |s| && !Divides(s[chp])
        invariant old(chp) < chp <= |s| && buffer == s[old(chp)..chp]
        invariant AtomEnd(s, chp) == AtomEnd(s, old(chp) + 1)
        decreases |s| - chp
      {
        buffer := buffer + [s[chp]];
        chp := chp + 1;
      }
      if |buffer| > ATOM_MAX {
        return Err;
      }
      return Ok(buffer, chp);
    }

    method Atom() returns (r: Out<Cell>)
      requires Valid()
      modifies this`chp
      ensures Valid() && r == ReadAtom(s, old(chp)) && (r.Ok? ==> chp == r.next)
    {
      var n := Scan();
      if n.Err? {
        return Err;
      }
      return Ok(if n.value == NILSYMBOL then Nil else Cell.Atom(n.value), chp);
    }

    method From() returns (r: Out<Cell>)
      requires Valid()
      modifies this`chp
      ensures Valid() && r == ReadFrom(s, old(chp)) && (r.Ok? ==> chp == r.next)
      decreases |s| - chp, 0
    {
      var n := IfNextChar('(');
      if n == YES {
        r := Car();
      } else if n == NO {
        r := Atom();
      } else {
        r := Err;
      }
    }

    method Car() returns (r: Out<Cell>)
      requires Valid()
      modifies this`chp
      ensures Valid() && r == ReadCar(s, old(chp)) && (r.Ok? ==> chp == r.next)
      decreases |s| - chp, 1
    {
      var n := IfNextChar(')');
      if n == YES {
        return Ok(Nil, chp);
      } else if n == NO {
        var a := From();
        if a.Err? {
          return Err;
        }
        var d := Cdr();
        if d.Err? {
          return Err;
        }
        return Ok(Cons(a.value, d.value), chp);
      } else {
        return Err;
      }
    }

    method Cdr() returns (r: Out<Cell>)
      requires Valid()
      modifies this`chp
      ensures Valid() && r == ReadCdr(s, old(chp)) && (r.Ok? ==> chp == r.next)
      decreases |s| - chp, 2
    {
      var n := IfNextChar(')');
      if n == YES {
        return Ok(Nil, chp);
      } else if n == NO {
        r := Car();
      } else {
        r := Err;
      }
    }
  }
}
