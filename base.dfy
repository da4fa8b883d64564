// Types, constants and the session record shared by every part of the shell
// (the declarations of includes/shell.h).
module Base {

  /** The characters of a C string, without its terminator. */
  type Str = seq<char>

  /** An `unsigned int`. */
  type u32 = x: int | 0 <= x < 0x1_0000_0000

  const NUL: char := '\0'

  const READ_BUF_SIZE: nat := 1024
  const WRITE_BUF_SIZE: nat := 1024

  // Command chaining types
  const CMD_NORM: int := 0
  const CMD_OR: int := 1
  const CMD_AND: int := 2
  const CMD_CHAIN: int := 3

  // Flags of convert_number
  const CONVERT_LOWERCASE: int := 1
  const CONVERT_UNSIGNED: int := 2

  const HIST_FILE: Str := ".simple_shell_history"
  const HIST_MAX: int := 4096

  const INT_MAX: int := 0x7fff_ffff
  const INT_MIN: int := -0x8000_0000
  const STDERR_FILENO: int := 2

  datatype Option<T> = None | Some(value: T)

  /** One list_t node; its `next` is its successor in the sequence that holds it. */
  datatype Node = Node(num: int, str: Str)

  /**
   * A `list_t *` variable whose address is passed as `list_t **`: the nodes reachable
   * from it, in order. A node is identified by its position.
   */
  class ListHead {
    var nodes: seq<Node>

    constructor ()
      ensures nodes == []
    {
      nodes := [];
    }
  }

  predicate NoNul(s: seq<char>) {
    forall k :: 0 <= k < |s| ==> s[k] != NUL
  }

  lemma HistFileNoNul()
    ensures NoNul(HIST_FILE)
  {
    assert NUL !in HIST_FILE;
    forall k | 0 <= k < |HIST_FILE| ensures HIST_FILE[k] != NUL {
      assert HIST_FILE[k] in HIST_FILE;
    }
  }

  lemma NoNulAppend(a: seq<char>, b: seq<char>)
    requires NoNul(a) && NoNul(b)
    ensures NoNul(a + b)
  {
    forall k | 0 <= k < |a + b| ensures (a + b)[k] != NUL {
      if k >= |a| {
        assert (a + b)[k] == b[k - |a|];
      }
    }
  }

  /**
   * The byte at index k of the memory m a C pointer designates: m holds the bytes
   * from the pointer to the end of the allocation, and a terminator follows them.
   */
  function At(m: seq<char>, k: nat): char {
    if k < |m| then m[k] else NUL
  }

  function Min(a: int, b: int): int { if a < b then a else b }
  function Max(a: int, b: int): int { if a < b then b else a }

  lemma AppendAssoc<T>(a: seq<T>, b: seq<T>, c: seq<T>)
    ensures (a + b) + c == a + (b + c)
  {
  }

  /** `x++` on an unsigned int. */
  function Inc32(x: u32): u32 {
    (x + 1) % 0x1_0000_0000
  }

  /** The int an unsigned int converts to (two's complement). */
  function ToInt32(x: u32): int {
    if x <= INT_MAX then x else x - 0x1_0000_0000
  }

  predicate IsDigit(c: char) { '0' <= c <= '9' }

  /**
   * info_t, the state threaded through every iteration of the loop.
   * A NULL argv is the empty sequence (strtow never yields an empty array); each
   * argv element is the memory of one token, which unset_alias may write a NUL into.
   * fname NULL is the empty string (_eputs prints nothing for either).
   */
  class Info {
    var arg: Option<Str>
    var argv: seq<seq<char>>
    var path: Option<Str>
    var argc: int
    var line_count: u32
    var err_num: int
    var linecount_flag: int
    var fname: Str
    const env: ListHead
    const history: ListHead
    const alias: ListHead
    var environ: Option<seq<Str>>
    var env_changed: int
    var status: int
    /** Whether cmd_buf points at the chain buffer of get_input. */
    var cmd_buf: bool
    /**
     * Where arg points into the block that holds it: 0 at the block's start, i for a
     * command get_input hands out from position i of the chain buffer.
     */
    var arg_at: nat
    var cmd_buf_type: int
    var readfd: int
    var histcount: int

    /** The three lists are distinct variables. */
    ghost predicate Valid()
      reads this
    {
      env != history && env != alias && history != alias
    }

    /** INFO_INIT, with readfd set as main does. */
    constructor (readfd: int)
      ensures Valid() && fresh(env) && fresh(history) && fresh(alias)
      ensures arg == None && argv == [] && path == None && argc == 0
      ensures line_count == 0 && err_num == 0 && linecount_flag == 0 && fname == []
      ensures env.nodes == [] && history.nodes == [] && alias.nodes == [] && environ == None
      ensures env_changed == 0 && status == 0 && !cmd_buf && arg_at == 0 && cmd_buf_type == CMD_NORM
      ensures this.readfd == readfd && histcount == 0
    {
      arg, argv, path, argc := None, [], None, 0;
      line_count, err_num, linecount_flag, fname := 0, 0, 0, [];
      env := new ListHead();
      history := new ListHead();
      alias := new ListHead();
      environ := None;
      env_changed, status, cmd_buf, arg_at, cmd_buf_type := 0, 0, false, 0, CMD_NORM;
      this.readfd, histcount := readfd, 0;
    }
  }
}
