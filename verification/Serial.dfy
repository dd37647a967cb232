/** kprint on the serial port: the characters sent are a recursive rendering of format and arguments. */
module Serial {
  import opened CString

  /** A conversion needs an argument; a lone '%' at the end would run past the format. */
  predicate Complete(f: CString, args: seq<int>)
    decreases |f|
  {
    if f == "" then true
    else if f[0] != '%' then Complete(f[1..], args)
    else if |f| == 1 then false
    else if f[1] in {'c', 'd', 'x'} then |args| > 0 && Complete(f[2..], args[1..])
    else Complete(f[2..], args)
  }

  /** An `int` argument passed to itoa's unsigned 64-bit parameter. */
  function Unsigned(n: int): (u: nat)
    ensures u < 0x1_0000_0000_0000_0000
  {
    n % 0x1_0000_0000_0000_0000
  }

  /** The character an argument prints as; the zero character ends the buffer and prints nothing. */
  function CharText(n: int): CString {
    if n % 256 == 0 then "" else [(n % 256) as char]
  }

  function Render(f: CString, args: seq<int>): string
    requires Complete(f, args)
    decreases |f|
  {
    if f == "" then ""
    else if f[0] != '%' then [f[0]] + Render(f[1..], args)
    else if f[1] == 'c' then CharText(args[0]) + Render(f[2..], args[1..])
    else if f[1] == 'd' then Digits(Unsigned(args[0]), 10) + Render(f[2..], args[1..])
    else if f[1] == 'x' then Digits(Unsigned(args[0]), 16) + Render(f[2..], args[1..])
    else [f[1]] + Render(f[2..], args)
  }

  /** "%d" shows a number that is not negative in decimal, "%x" in hexadecimal, without a leading zero; a negative one
      is shown as its 64-bit two's complement. */
  lemma ShowsNumber(n: int)
    requires -0x8000_0000 <= n < 0x8000_0000
    ensures Value(Render("%d", [n]), 10) == (if n >= 0 then n else 0x1_0000_0000_0000_0000 + n)
    ensures Value(Render("%x", [n]), 16) == (if n >= 0 then n else 0x1_0000_0000_0000_0000 + n)
    ensures |Render("%d", [n])| > 1 ==> Render("%d", [n])[0] != '0'
    ensures |Render("%x", [n])| > 1 ==> Render("%x", [n])[0] != '0'
  {
    hide Digits, Value, Digit;
    var u := Unsigned(n);
    assert Render("%d", [n]) == Digits(u, 10) + Render("%d"[2..], [n][1..]) == Digits(u, 10);
    assert Render("%x", [n]) == Digits(u, 16) + Render("%x"[2..], [n][1..]) == Digits(u, 16);
    DigitsValue(u, 10);
    DigitsValue(u, 16);
    NoLeadingZero(u, 10);
    NoLeadingZero(u, 16);
  }

  /** Text without a '%' is shown as it is, and "%c" shows one character. */
  lemma {:induction false} ShowsText(f: CString, n: int)
    requires '%' !in f && 0 < n < 256
    ensures Complete(f, []) && Render(f, []) == f
    ensures Render("%c", [n]) == [n as char]
    decreases |f|
  {
    hide Digits;
    assert Render("%c", [n]) == CharText(n) + Render("%c"[2..], [n][1..]) == CharText(n);
    if f != "" {
      assert f[0] in f;
      ShowsText(f[1..], n);
    }
  }

  /** How many arguments a format takes. */
  function Taken(f: CString): nat
    decreases |f|
  {
    if f == "" then 0
    else if f[0] != '%' then Taken(f[1..])
    else if |f| == 1 then 0
    else (if f[1] in {'c', 'd', 'x'} then 1 else 0) + Taken(f[2..])
  }

  /** Formats that follow one another print one after another, each with its own arguments. */
  lemma {:induction false} RenderJoin(f: CString, g: CString, a: seq<int>, b: seq<int>)
    requires Complete(f, a) && Complete(g, b) && Taken(f) == |a|
    ensures Complete(f + g, a + b) && Render(f + g, a + b) == Render(f, a) + Render(g, b)
    decreases |f|
  {
    hide Digits, CharText, Unsigned;
    if f == "" {
      assert f + g == g && a + b == b;
    } else if f[0] != '%' {
      assert (f + g)[1..] == f[1..] + g;
      RenderJoin(f[1..], g, a, b);
    } else {
      assert (f + g)[2..] == f[2..] + g;
      if f[1] in {'c', 'd', 'x'} {
        assert (a + b)[1..] == a[1..] + b;
        RenderJoin(f[2..], g, a[1..], b);
      } else {
        RenderJoin(f[2..], g, a, b);
      }
    }
  }

  class Port {
    var output: string

    method SendData(c: char)
      modifies `output
      ensures output == old(output) + [c]
    {
      output := output + [c];
    }

    /** putstr on a buffer: what precedes its first zero. */
    method PutBuffer(buffer: array<char>, ghost text: CString)
      requires |text| < buffer.Length && buffer[..|text|] == text && buffer[|text|] == '\0'
      modifies `output
      ensures output == old(output) + text
    {
      var i := 0;
      while buffer[i] != '\0'
        invariant 0 <= i <= |text| && output == old(output) + text[..i]
        decreases |text| - i
      {
        assert i < |text| && buffer[i] == buffer[..|text|][i];
        SendData(buffer[i]);
        i := i + 1;
      }
      assert i == |text|;
    }

    /** memset(num_str, 0, 65). */
    method Clear(buffer: array<char>)
      requires buffer.Length == 65
      modifies buffer
      ensures Zeroed(buffer[..])
    {
      for i := 0 to 65
        invariant forall k | 0 <= k < i :: buffer[k] == '\0'
      {
        buffer[i] := '\0';
      }
    }

    method PutNumber(num: nat, b: Base, buffer: array<char>)
      requires num < 0x1_0000_0000_0000_0000 && buffer.Length == 65 && Zeroed(buffer[..])
      modifies `output, buffer
      ensures output == old(output) + Digits(num, b) && Zeroed(buffer[..])
    {
      hide Digits;
      WordBits();
      DigitsFit(num, b, 64);
      DigitsAreClean(num, b);
      Itoa(num, b, buffer);
      var n := |Digits(num, b)|;
      assert buffer[n] == buffer[n..][0] == old(buffer[n..])[0] == old(buffer[..])[n];
      PutBuffer(buffer, Digits(num, b));
      Clear(buffer);
    }

    method PutChar(arg: int, buffer: array<char>)
      requires buffer.Length == 65 && Zeroed(buffer[..])
      modifies `output, buffer
      ensures output == old(output) + CharText(arg) && Zeroed(buffer[..])
    {
      assert old(buffer[..])[0] == '\0' && old(buffer[..])[1] == '\0';
      buffer[0] := (arg % 256) as char;
      assert buffer[..1] == [buffer[0]];
      PutBuffer(buffer, CharText(arg));
      Clear(buffer);
    }

    /** kprint. */
    method Kprint(str: CString, arguments: seq<int>)
      requires Complete(str, arguments)
      modifies `output
      ensures output == old(output) + Render(str, arguments)
    {
      hide CharText, Digits, Unsigned;
      var num_str := new char[65](_ => '\0');
      var c, args := str, arguments;
      while c != ""
        invariant Complete(c, args) && num_str.Length == 65 && Zeroed(num_str[..])
        invariant output + Render(c, args) == old(output) + Render(str, arguments)
        decreases |c|
      {
        if c[0] == '%' {
          if c[1] == '%' {
            SendData(c[1]);
            c := c[2..];
            continue;
          } else if c[1] == 'c' {
            PutChar(args[0], num_str);
            c, args := c[2..], args[1..];
            continue;
          } else if c[1] == 'd' {
            PutNumber(Unsigned(args[0]), 10, num_str);
            c, args := c[2..], args[1..];
            continue;
          } else if c[1] == 'x' {
            PutNumber(Unsigned(args[0]), 16, num_str);
            c, args := c[2..], args[1..];
            continue;
          }
          c := c[1..];
        }
        SendData(c[0]);
        c := c[1..];
      }
    }
  }

  ghost predicate Zeroed(buffer: seq<char>) { forall k | 0 <= k < |buffer| :: buffer[k] == '\0' }
}
