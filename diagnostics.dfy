/**
 * The test sequence of `modbus_diagnostics` (modbus_tcp_mcp.py): a connection test,
 * then an optional one-register read of holding register 0. Latencies are left out.
 */
module Diagnostics {
  import opened Results
  import opened Codec
  import opened Requests
  import opened Pool
  import opened Protocol

  datatype Status = Pass | Partial | Fail

  /** The data a test reports besides its status. */
  datatype Detail = NoDetail | ValueRead(word: Word) | ExceptionCode(code: int)

  datatype TestResult = TestResult(name: string, status: Status, detail: Detail)

  const ConnectionTest: string := "Connection Test"
  /** The name of a test read that produced a response. */
  const TestReadAtZero: string := "Test Read (Address 0)"
  /** The name of a test read that raised. */
  const TestRead: string := "Test Read"

  /**
   * The outcome of the test read: PASS with the value of the first register when
   * the device answers with registers, PARTIAL when it answers with an exception
   * response, FAIL otherwise. A reply with no first register makes the source raise
   * while building the PASS entry, so it is reported under the name of a read that
   * raised.
   */
  function TestReadResult(reply: ReadReply): (t: TestResult)
    ensures t.status == Pass <==> reply.Registers? && |reply.words| > 0
    ensures t.status == Partial <==> reply.ReadException?
    ensures t.status == Pass ==> t.detail == ValueRead(reply.words[0])
    ensures t.status == Partial ==> t.detail == ExceptionCode(reply.code)
    ensures t.name == (if reply.ReadException? || reply.ReadError? || t.status == Pass then TestReadAtZero else TestRead)
  {
    match reply
    case ReadException(code) => TestResult(TestReadAtZero, Partial, ExceptionCode(code))
    case ReadError => TestResult(TestReadAtZero, Fail, NoDetail)
    case Registers(words) =>
      if |words| > 0 then TestResult(TestReadAtZero, Pass, ValueRead(words[0]))
      else TestResult(TestRead, Fail, NoDetail)
    case Bits(_) => TestResult(TestRead, Fail, NoDetail)
    case ReadRaised(_) => TestResult(TestRead, Fail, NoDetail)
  }

  /**
   * `modbus_diagnostics`: the tests in the order they ran. When the connection
   * fails the report is that one FAIL and nothing else runs; otherwise the
   * connection PASS is followed by the test read when it is asked for, which reads
   * one holding register at address 0.
   */
  method Run(pool: ConnectionPool, host: string, port: int, testRead: bool, handshakeSucceeds: bool,
             reply: ReadReply)
    returns (sent: Option<Call>, tests: seq<TestResult>)
    requires pool.Valid()
    modifies pool
    ensures pool.Valid()
    ensures pool.Acquired(host, port, DefaultTimeout, handshakeSucceeds, old(pool.Live(host, port)), old(pool.entries), old(pool.Handshakes))
    ensures !old(pool.Live(host, port)) && !handshakeSucceeds ==>
      tests == [TestResult(ConnectionTest, Fail, NoDetail)] && sent == None
    ensures old(pool.Live(host, port)) || handshakeSucceeds ==>
      && tests == [TestResult(ConnectionTest, Pass, NoDetail)] + (if testRead then [TestReadResult(reply)] else [])
      && sent == (if testRead then Some(ReadHoldingRegisters(0, 1)) else None)
  {
    tests := [];
    sent := None;
    var client := pool.Acquire(host, port, DefaultTimeout, handshakeSucceeds);
    if client == null {
      tests := tests + [TestResult(ConnectionTest, Fail, NoDetail)];
      return;
    }
    tests := tests + [TestResult(ConnectionTest, Pass, NoDetail)];
    if testRead {
      sent := Some(ReadHoldingRegisters(0, 1));
      tests := tests + [TestReadResult(reply)];
    }
  }
}
