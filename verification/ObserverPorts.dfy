/** The port of an observer, read from its REST interface "host:port" in two different ways. */
module ObserverPorts {
  import opened Wrappers
  import opened Integers
  import opened Text
  import Decimal

  datatype PortError = Missing | NotANumber

  /** pkg/facade: splits at the colons and parses the second of two parts. */
  function Port(apiInterface: string): Result<int64, PortError> {
    var split := Split(apiInterface, ':');
    if |split| != 2 then Err(Missing)
    else match Decimal.Atoi(split[1])
      case None => Err(NotANumber)
      case Some(port) => Ok(port)
  }

  const LOCAL_INTERFACE := "localhost"

  datatype Sliced = Panic | Parsed(port: Option<int64>)

  /** cmd/chainsimulator: drops the length of "localhost:" and parses the rest; too short a text panics. */
  function SlicedPort(proxyURL: string): Sliced {
    if |proxyURL| < |LOCAL_INTERFACE| + 1 then Panic
    else Parsed(Decimal.Atoi(proxyURL[|LOCAL_INTERFACE| + 1..]))
  }

  /** The port printed after a host is read back exactly when the host holds no colon; otherwise there is an error. */
  lemma {:induction false} PortRoundTrip(host: string, port: int64)
    ensures Port(host + ":" + Decimal.Itoa(port)) == if ':' in host then Err(Missing) else Ok(port)
  {
    var digits := Decimal.Itoa(port);
    var text := host + ":" + digits;
    Decimal.ItoaHasNoOther(port, ':');
    Decimal.AtoiAfterItoa(port);
    if ':' in host {
      CountZeroIff(host, ':');
      CountConcat(host, ":", ':');
      CountConcat(host + ":", digits, ':');
      assert Count(":", ':') == 1;
      PartsHaveNoSeparator(text, ':');
    } else {
      SplitAfterJoin([host, digits], ':');
      assert [host, digits][1..] == [digits];
      assert Join([host, digits], ':') == text;
    }
  }

  /** Reading fails exactly when there is not one single colon or what follows it is no 64-bit number. */
  lemma {:induction false} PortFailsExactly(apiInterface: string)
    ensures Port(apiInterface) == Err(Missing) <==> Count(apiInterface, ':') != 1
    ensures Port(apiInterface) == Err(NotANumber) <==>
            Count(apiInterface, ':') == 1 && Decimal.Atoi(Split(apiInterface, ':')[1]).None?
  {
    PartsHaveNoSeparator(apiInterface, ':');
  }

  /** Slicing panics exactly on texts of less than ten characters. */
  lemma {:induction false} SlicingPanicsIff(proxyURL: string)
    ensures SlicedPort(proxyURL) == Panic <==> |proxyURL| < 10
  {}

  /** On every interface of the local host the two ways agree. */
  lemma {:induction false} SlicingAgrees(rest: string)
    ensures SlicedPort("localhost" + ":" + rest) ==
            Parsed(match Port("localhost" + ":" + rest) case Ok(port) => Some(port) case Err(_) => None)
  {
    var text := LOCAL_INTERFACE + ":" + rest;
    assert text[|LOCAL_INTERFACE| + 1..] == rest;
    CountZeroIff(LOCAL_INTERFACE, ':');
    if ':' in rest {
      if Decimal.Atoi(rest).Some? {
        Decimal.AtoiHasNoOther(rest, ':');
      }
      CountZeroIff(rest, ':');
      CountConcat(LOCAL_INTERFACE, ":", ':');
      CountConcat(LOCAL_INTERFACE + ":", rest, ':');
      assert Count(":", ':') == 1;
      PartsHaveNoSeparator(text, ':');
    } else {
      SplitAfterJoin([LOCAL_INTERFACE, rest], ':');
      assert [LOCAL_INTERFACE, rest][1..] == [rest];
      assert Join([LOCAL_INTERFACE, rest], ':') == text;
    }
  }
}
