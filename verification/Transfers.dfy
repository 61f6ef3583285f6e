/** Non-blocking transfers. */
module Transfers {
  import opened Bytes

  /** What `read` or `write` may do: move some bytes (none at the end of a file), block, or fail. */
  datatype Input = Got(data: bytes) | NotYet | ReadError
  datatype Output = Wrote(n: nat) | WouldBlock | WriteError

  /** A transfer asked for `n` bytes moves no more. */
  function CutInput(input: Input, n: nat): (r: Input)
    ensures r.Got? <==> input.Got?
    ensures r.Got? ==> r.data <= input.data && |r.data| == if |input.data| <= n then |input.data| else n
  {
    if input.Got? && |input.data| > n then Got(input.data[..n]) else input
  }

  function CutOutput(output: Output, n: nat): (r: Output)
    ensures r.Wrote? <==> output.Wrote?
    ensures r.Wrote? ==> r.n == if output.n <= n then output.n else n
  {
    if output.Wrote? && output.n > n then Wrote(n) else output
  }
}
