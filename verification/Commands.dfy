/**
  The commands the cluster client knows (hiredis-vip-master/command.h, command.c): how a
  name is recognised and what follows the first key.
  */
module Commands {
  import opened Bytes

  /** The enumeration of command types. */
  type Cmd = int

  const UNKNOWN: Cmd := 0
  const DEL: Cmd := 1
  const EXISTS: Cmd := 2
  const EXPIRE: Cmd := 3
  const EXPIREAT: Cmd := 4
  const PEXPIRE: Cmd := 5
  const PEXPIREAT: Cmd := 6
  const PERSIST: Cmd := 7
  const PTTL: Cmd := 8
  const SORT: Cmd := 9
  const TTL: Cmd := 10
  const TYPE: Cmd := 11
  const APPEND: Cmd := 12
  const BITCOUNT: Cmd := 13
  const DECR: Cmd := 14
  const DECRBY: Cmd := 15
  const DUMP: Cmd := 16
  const GET: Cmd := 17
  const GETBIT: Cmd := 18
  const GETRANGE: Cmd := 19
  const GETSET: Cmd := 20
  const INCR: Cmd := 21
  const INCRBY: Cmd := 22
  const INCRBYFLOAT: Cmd := 23
  const MGET: Cmd := 24
  const MSET: Cmd := 25
  const PSETEX: Cmd := 26
  const RESTORE: Cmd := 27
  const SET: Cmd := 28
  const SETBIT: Cmd := 29
  const SETEX: Cmd := 30
  const SETNX: Cmd := 31
  const SETRANGE: Cmd := 32
  const STRLEN: Cmd := 33
  const HDEL: Cmd := 34
  const HEXISTS: Cmd := 35
  const HGET: Cmd := 36
  const HGETALL: Cmd := 37
  const HINCRBY: Cmd := 38
  const HINCRBYFLOAT: Cmd := 39
  const HKEYS: Cmd := 40
  const HLEN: Cmd := 41
  const HMGET: Cmd := 42
  const HMSET: Cmd := 43
  const HSET: Cmd := 44
  const HSETNX: Cmd := 45
  const HSCAN: Cmd := 46
  const HVALS: Cmd := 47
  const LINDEX: Cmd := 48
  const LINSERT: Cmd := 49
  const LLEN: Cmd := 50
  const LPOP: Cmd := 51
  const LPUSH: Cmd := 52
  const LPUSHX: Cmd := 53
  const LRANGE: Cmd := 54
  const LREM: Cmd := 55
  const LSET: Cmd := 56
  const LTRIM: Cmd := 57
  const PFADD: Cmd := 58
  const PFCOUNT: Cmd := 59
  const PFMERGE: Cmd := 60
  const RPOP: Cmd := 61
  const RPOPLPUSH: Cmd := 62
  const RPUSH: Cmd := 63
  const RPUSHX: Cmd := 64
  const SADD: Cmd := 65
  const SCARD: Cmd := 66
  const SDIFF: Cmd := 67
  const SDIFFSTORE: Cmd := 68
  const SINTER: Cmd := 69
  const SINTERSTORE: Cmd := 70
  const SISMEMBER: Cmd := 71
  const SMEMBERS: Cmd := 72
  const SMOVE: Cmd := 73
  const SPOP: Cmd := 74
  const SRANDMEMBER: Cmd := 75
  const SREM: Cmd := 76
  const SUNION: Cmd := 77
  const SUNIONSTORE: Cmd := 78
  const SSCAN: Cmd := 79
  const ZADD: Cmd := 80
  const ZCARD: Cmd := 81
  const ZCOUNT: Cmd := 82
  const ZINCRBY: Cmd := 83
  const ZINTERSTORE: Cmd := 84
  const ZLEXCOUNT: Cmd := 85
  const ZRANGE: Cmd := 86
  const ZRANGEBYLEX: Cmd := 87
  const ZRANGEBYSCORE: Cmd := 88
  const ZRANK: Cmd := 89
  const ZREM: Cmd := 90
  const ZREMRANGEBYRANK: Cmd := 91
  const ZREMRANGEBYLEX: Cmd := 92
  const ZREMRANGEBYSCORE: Cmd := 93
  const ZREVRANGE: Cmd := 94
  const ZREVRANGEBYSCORE: Cmd := 95
  const ZREVRANK: Cmd := 96
  const ZSCORE: Cmd := 97
  const ZUNIONSTORE: Cmd := 98
  const ZSCAN: Cmd := 99
  const EVAL: Cmd := 100
  const EVALSHA: Cmd := 101
  const PING: Cmd := 102
  const QUIT: Cmd := 103
  const AUTH: Cmd := 104

  const LAST: Cmd := 104

  /** Commands without a key. */
  predicate ArgZ(t: Cmd) {
    t == PING || t == QUIT
  }

  /** A key and nothing else. */
  predicate Arg0(t: Cmd) {
    t == EXISTS || t == PERSIST || t == PTTL || t == SORT || t == TTL || t == TYPE
    || t == DUMP || t == DECR || t == GET || t == INCR || t == STRLEN || t == HGETALL
    || t == HKEYS || t == HLEN || t == HVALS || t == LLEN || t == LPOP || t == RPOP
    || t == SCARD || t == SMEMBERS || t == SPOP || t == ZCARD || t == PFCOUNT || t == AUTH
  }

  /** A key and exactly one argument. */
  predicate Arg1(t: Cmd) {
    t == EXPIRE || t == EXPIREAT || t == PEXPIRE || t == PEXPIREAT || t == APPEND || t == DECRBY
    || t == GETBIT || t == GETSET || t == INCRBY || t == INCRBYFLOAT || t == SETNX || t == HEXISTS
    || t == HGET || t == LINDEX || t == LPUSHX || t == RPOPLPUSH || t == RPUSHX || t == SISMEMBER
    || t == ZRANK || t == ZREVRANK || t == ZSCORE
  }

  /** A key and exactly two arguments. */
  predicate Arg2(t: Cmd) {
    t == GETRANGE || t == PSETEX || t == SETBIT || t == SETEX || t == SETRANGE || t == HINCRBY
    || t == HINCRBYFLOAT || t == HSET || t == HSETNX || t == LRANGE || t == LREM || t == LSET
    || t == LTRIM || t == SMOVE || t == ZCOUNT || t == ZLEXCOUNT || t == ZINCRBY || t == ZREMRANGEBYLEX
    || t == ZREMRANGEBYRANK || t == ZREMRANGEBYSCORE || t == RESTORE
  }

  /** A key and exactly three arguments. */
  predicate Arg3(t: Cmd) {
    t == LINSERT
  }

  /** A key and any number of arguments. */
  predicate ArgN(t: Cmd) {
    t == BITCOUNT || t == SET || t == HDEL || t == HMGET || t == HMSET || t == HSCAN
    || t == LPUSH || t == RPUSH || t == SADD || t == SDIFF || t == SDIFFSTORE || t == SINTER
    || t == SINTERSTORE || t == SREM || t == SUNION || t == SUNIONSTORE || t == SRANDMEMBER || t == SSCAN
    || t == PFADD || t == PFMERGE || t == ZADD || t == ZINTERSTORE || t == ZRANGE || t == ZRANGEBYSCORE
    || t == ZREM || t == ZREVRANGE || t == ZRANGEBYLEX || t == ZREVRANGEBYSCORE || t == ZUNIONSTORE || t == ZSCAN
  }

  /** One or more keys. */
  predicate ArgX(t: Cmd) {
    t == MGET || t == DEL
  }

  /** One or more key-value pairs. */
  predicate ArgKvx(t: Cmd) {
    t == MSET
  }

  /** A script, the number of keys, then keys and arguments. */
  predicate ArgEval(t: Cmd) {
    t == EVAL || t == EVALSHA
  }

  /** The nine classes divide the known commands. */
  lemma EachCommandHasOneClass(t: Cmd)
    ensures (if ArgZ(t) then 1 else 0) + (if Arg0(t) then 1 else 0) + (if Arg1(t) then 1 else 0)
          + (if Arg2(t) then 1 else 0) + (if Arg3(t) then 1 else 0) + (if ArgN(t) then 1 else 0)
          + (if ArgX(t) then 1 else 0) + (if ArgKvx(t) then 1 else 0) + (if ArgEval(t) then 1 else 0)
          == if UNKNOWN < t <= LAST then 1 else 0
  {
  }

  /** A byte against a lower-case letter, ignoring case. */
  predicate Icmp(b: byte, c: char) {
    b as int == c as int || b as int == c as int - 32
  }

  predicate Icmp3(m: bytes, c0: char, c1: char, c2: char)
    requires |m| >= 3
  {
    Icmp(m[0], c0) && Icmp(m[1], c1) && Icmp(m[2], c2)
  }

  predicate Icmp4(m: bytes, c0: char, c1: char, c2: char, c3: char)
    requires |m| >= 4
  {
    Icmp3(m, c0, c1, c2) && Icmp(m[3], c3)
  }

  predicate Icmp5(m: bytes, c0: char, c1: char, c2: char, c3: char, c4: char)
    requires |m| >= 5
  {
    Icmp4(m, c0, c1, c2, c3) && Icmp(m[4], c4)
  }

  predicate Icmp6(m: bytes, c0: char, c1: char, c2: char, c3: char, c4: char, c5: char)
    requires |m| >= 6
  {
    Icmp5(m, c0, c1, c2, c3, c4) && Icmp(m[5], c5)
  }

  predicate Icmp7(m: bytes, c0: char, c1: char, c2: char, c3: char, c4: char, c5: char, c6: char)
    requires |m| >= 7
  {
    Icmp6(m, c0, c1, c2, c3, c4, c5) && Icmp(m[6], c6)
  }

  predicate Icmp8(m: bytes, c0: char, c1: char, c2: char, c3: char, c4: char, c5: char, c6: char, c7: char)
    requires |m| >= 8
  {
    Icmp7(m, c0, c1, c2, c3, c4, c5, c6) && Icmp(m[7], c7)
  }

  predicate Icmp9(m: bytes, c0: char, c1: char, c2: char, c3: char, c4: char, c5: char, c6: char, c7: char,
    c8: char)
    requires |m| >= 9
  {
    Icmp8(m, c0, c1, c2, c3, c4, c5, c6, c7) && Icmp(m[8], c8)
  }

  predicate Icmp10(m: bytes, c0: char, c1: char, c2: char, c3: char, c4: char, c5: char, c6: char, c7: char,
    c8: char, c9: char)
    requires |m| >= 10
  {
    Icmp9(m, c0, c1, c2, c3, c4, c5, c6, c7, c8) && Icmp(m[9], c9)
  }

  predicate Icmp11(m: bytes, c0: char, c1: char, c2: char, c3: char, c4: char, c5: char, c6: char, c7: char,
    c8: char, c9: char, c10: char)
    requires |m| >= 11
  {
    Icmp10(m, c0, c1, c2, c3, c4, c5, c6, c7, c8, c9) && Icmp(m[10], c10)
  }

  predicate Icmp12(m: bytes, c0: char, c1: char, c2: char, c3: char, c4: char, c5: char, c6: char, c7: char,
    c8: char, c9: char, c10: char, c11: char)
    requires |m| >= 12
  {
    Icmp11(m, c0, c1, c2, c3, c4, c5, c6, c7, c8, c9, c10) && Icmp(m[11], c11)
  }

  predicate Icmp13(m: bytes, c0: char, c1: char, c2: char, c3: char, c4: char, c5: char, c6: char, c7: char,
    c8: char, c9: char, c10: char, c11: char, c12: char)
    requires |m| >= 13
  {
    Icmp12(m, c0, c1, c2, c3, c4, c5, c6, c7, c8, c9, c10, c11) && Icmp(m[12], c12)
  }

  predicate Icmp14(m: bytes, c0: char, c1: char, c2: char, c3: char, c4: char, c5: char, c6: char, c7: char,
    c8: char, c9: char, c10: char, c11: char, c12: char, c13: char)
    requires |m| >= 14
  {
    Icmp13(m, c0, c1, c2, c3, c4, c5, c6, c7, c8, c9, c10, c11, c12) && Icmp(m[13], c13)
  }

  predicate Icmp15(m: bytes, c0: char, c1: char, c2: char, c3: char, c4: char, c5: char, c6: char, c7: char,
    c8: char, c9: char, c10: char, c11: char, c12: char, c13: char, c14: char)
    requires |m| >= 15
  {
    Icmp14(m, c0, c1, c2, c3, c4, c5, c6, c7, c8, c9, c10, c11, c12, c13) && Icmp(m[14], c14)
  }

  predicate Icmp16(m: bytes, c0: char, c1: char, c2: char, c3: char, c4: char, c5: char, c6: char, c7: char,
    c8: char, c9: char, c10: char, c11: char, c12: char, c13: char, c14: char, c15: char)
    requires |m| >= 16
  {
    Icmp15(m, c0, c1, c2, c3, c4, c5, c6, c7, c8, c9, c10, c11, c12, c13, c14) && Icmp(m[15], c15)
  }

  function TypeOf3(m: bytes): Cmd
    requires |m| == 3
  {
    if Icmp3(m, 'g', 'e', 't') then GET
    else if Icmp3(m, 's', 'e', 't') then SET
    else if Icmp3(m, 't', 't', 'l') then TTL
    else if Icmp3(m, 'd', 'e', 'l') then DEL
    else UNKNOWN
  }

  function TypeOf4(m: bytes): Cmd
    requires |m| == 4
  {
    if Icmp4(m, 'p', 't', 't', 'l') then PTTL
    else if Icmp4(m, 'd', 'e', 'c', 'r') then DECR
    else if Icmp4(m, 'd', 'u', 'm', 'p') then DUMP
    else if Icmp4(m, 'h', 'd', 'e', 'l') then HDEL
    else if Icmp4(m, 'h', 'g', 'e', 't') then HGET
    else if Icmp4(m, 'h', 'l', 'e', 'n') then HLEN
    else if Icmp4(m, 'h', 's', 'e', 't') then HSET
    else if Icmp4(m, 'i', 'n', 'c', 'r') then INCR
    else if Icmp4(m, 'l', 'l', 'e', 'n') then LLEN
    else if Icmp4(m, 'l', 'p', 'o', 'p') then LPOP
    else if Icmp4(m, 'l', 'r', 'e', 'm') then LREM
    else if Icmp4(m, 'l', 's', 'e', 't') then LSET
    else if Icmp4(m, 'r', 'p', 'o', 'p') then RPOP
    else if Icmp4(m, 's', 'a', 'd', 'd') then SADD
    else if Icmp4(m, 's', 'p', 'o', 'p') then SPOP
    else if Icmp4(m, 's', 'r', 'e', 'm') then SREM
    else if Icmp4(m, 't', 'y', 'p', 'e') then TYPE
    else if Icmp4(m, 'm', 'g', 'e', 't') then MGET
    else if Icmp4(m, 'm', 's', 'e', 't') then MSET
    else if Icmp4(m, 'z', 'a', 'd', 'd') then ZADD
    else if Icmp4(m, 'z', 'r', 'e', 'm') then ZREM
    else if Icmp4(m, 'e', 'v', 'a', 'l') then EVAL
    else if Icmp4(m, 's', 'o', 'r', 't') then SORT
    else if Icmp4(m, 'p', 'i', 'n', 'g') then PING
    else if Icmp4(m, 'q', 'u', 'i', 't') then QUIT
    else if Icmp4(m, 'a', 'u', 't', 'h') then AUTH
    else UNKNOWN
  }

  function TypeOf5(m: bytes): Cmd
    requires |m| == 5
  {
    if Icmp5(m, 'h', 'k', 'e', 'y', 's') then HKEYS
    else if Icmp5(m, 'h', 'm', 'g', 'e', 't') then HMGET
    else if Icmp5(m, 'h', 'm', 's', 'e', 't') then HMSET
    else if Icmp5(m, 'h', 'v', 'a', 'l', 's') then HVALS
    else if Icmp5(m, 'h', 's', 'c', 'a', 'n') then HSCAN
    else if Icmp5(m, 'l', 'p', 'u', 's', 'h') then LPUSH
    else if Icmp5(m, 'l', 't', 'r', 'i', 'm') then LTRIM
    else if Icmp5(m, 'r', 'p', 'u', 's', 'h') then RPUSH
    else if Icmp5(m, 's', 'c', 'a', 'r', 'd') then SCARD
    else if Icmp5(m, 's', 'd', 'i', 'f', 'f') then SDIFF
    else if Icmp5(m, 's', 'e', 't', 'e', 'x') then SETEX
    else if Icmp5(m, 's', 'e', 't', 'n', 'x') then SETNX
    else if Icmp5(m, 's', 'm', 'o', 'v', 'e') then SMOVE
    else if Icmp5(m, 's', 's', 'c', 'a', 'n') then SSCAN
    else if Icmp5(m, 'z', 'c', 'a', 'r', 'd') then ZCARD
    else if Icmp5(m, 'z', 'r', 'a', 'n', 'k') then ZRANK
    else if Icmp5(m, 'z', 's', 'c', 'a', 'n') then ZSCAN
    else if Icmp5(m, 'p', 'f', 'a', 'd', 'd') then PFADD
    else UNKNOWN
  }

  function TypeOf6(m: bytes): Cmd
    requires |m| == 6
  {
    if Icmp6(m, 'a', 'p', 'p', 'e', 'n', 'd') then APPEND
    else if Icmp6(m, 'd', 'e', 'c', 'r', 'b', 'y') then DECRBY
    else if Icmp6(m, 'e', 'x', 'i', 's', 't', 's') then EXISTS
    else if Icmp6(m, 'e', 'x', 'p', 'i', 'r', 'e') then EXPIRE
    else if Icmp6(m, 'g', 'e', 't', 'b', 'i', 't') then GETBIT
    else if Icmp6(m, 'g', 'e', 't', 's', 'e', 't') then GETSET
    else if Icmp6(m, 'p', 's', 'e', 't', 'e', 'x') then PSETEX
    else if Icmp6(m, 'h', 's', 'e', 't', 'n', 'x') then HSETNX
    else if Icmp6(m, 'i', 'n', 'c', 'r', 'b', 'y') then INCRBY
    else if Icmp6(m, 'l', 'i', 'n', 'd', 'e', 'x') then LINDEX
    else if Icmp6(m, 'l', 'p', 'u', 's', 'h', 'x') then LPUSHX
    else if Icmp6(m, 'l', 'r', 'a', 'n', 'g', 'e') then LRANGE
    else if Icmp6(m, 'r', 'p', 'u', 's', 'h', 'x') then RPUSHX
    else if Icmp6(m, 's', 'e', 't', 'b', 'i', 't') then SETBIT
    else if Icmp6(m, 's', 'i', 'n', 't', 'e', 'r') then SINTER
    else if Icmp6(m, 's', 't', 'r', 'l', 'e', 'n') then STRLEN
    else if Icmp6(m, 's', 'u', 'n', 'i', 'o', 'n') then SUNION
    else if Icmp6(m, 'z', 'c', 'o', 'u', 'n', 't') then ZCOUNT
    else if Icmp6(m, 'z', 'r', 'a', 'n', 'g', 'e') then ZRANGE
    else if Icmp6(m, 'z', 's', 'c', 'o', 'r', 'e') then ZSCORE
    else UNKNOWN
  }

  function TypeOf7(m: bytes): Cmd
    requires |m| == 7
  {
    if Icmp7(m, 'p', 'e', 'r', 's', 'i', 's', 't') then PERSIST
    else if Icmp7(m, 'p', 'e', 'x', 'p', 'i', 'r', 'e') then PEXPIRE
    else if Icmp7(m, 'h', 'e', 'x', 'i', 's', 't', 's') then HEXISTS
    else if Icmp7(m, 'h', 'g', 'e', 't', 'a', 'l', 'l') then HGETALL
    else if Icmp7(m, 'h', 'i', 'n', 'c', 'r', 'b', 'y') then HINCRBY
    else if Icmp7(m, 'l', 'i', 'n', 's', 'e', 'r', 't') then LINSERT
    else if Icmp7(m, 'z', 'i', 'n', 'c', 'r', 'b', 'y') then ZINCRBY
    else if Icmp7(m, 'e', 'v', 'a', 'l', 's', 'h', 'a') then EVALSHA
    else if Icmp7(m, 'r', 'e', 's', 't', 'o', 'r', 'e') then RESTORE
    else if Icmp7(m, 'p', 'f', 'c', 'o', 'u', 'n', 't') then PFCOUNT
    else if Icmp7(m, 'p', 'f', 'm', 'e', 'r', 'g', 'e') then PFMERGE
    else UNKNOWN
  }

  function TypeOf8(m: bytes): Cmd
    requires |m| == 8
  {
    if Icmp8(m, 'e', 'x', 'p', 'i', 'r', 'e', 'a', 't') then EXPIREAT
    else if Icmp8(m, 'b', 'i', 't', 'c', 'o', 'u', 'n', 't') then BITCOUNT
    else if Icmp8(m, 'g', 'e', 't', 'r', 'a', 'n', 'g', 'e') then GETRANGE
    else if Icmp8(m, 's', 'e', 't', 'r', 'a', 'n', 'g', 'e') then SETRANGE
    else if Icmp8(m, 's', 'm', 'e', 'm', 'b', 'e', 'r', 's') then SMEMBERS
    else if Icmp8(m, 'z', 'r', 'e', 'v', 'r', 'a', 'n', 'k') then ZREVRANK
    else UNKNOWN
  }

  function TypeOf9(m: bytes): Cmd
    requires |m| == 9
  {
    if Icmp9(m, 'p', 'e', 'x', 'p', 'i', 'r', 'e', 'a', 't') then PEXPIREAT
    else if Icmp9(m, 'r', 'p', 'o', 'p', 'l', 'p', 'u', 's', 'h') then RPOPLPUSH
    else if Icmp9(m, 's', 'i', 's', 'm', 'e', 'm', 'b', 'e', 'r') then SISMEMBER
    else if Icmp9(m, 'z', 'r', 'e', 'v', 'r', 'a', 'n', 'g', 'e') then ZREVRANGE
    else if Icmp9(m, 'z', 'l', 'e', 'x', 'c', 'o', 'u', 'n', 't') then ZLEXCOUNT
    else UNKNOWN
  }

  function TypeOf10(m: bytes): Cmd
    requires |m| == 10
  {
    if Icmp10(m, 's', 'd', 'i', 'f', 'f', 's', 't', 'o', 'r', 'e') then SDIFFSTORE
    else UNKNOWN
  }

  function TypeOf11(m: bytes): Cmd
    requires |m| == 11
  {
    if Icmp11(m, 'i', 'n', 'c', 'r', 'b', 'y', 'f', 'l', 'o', 'a', 't') then INCRBYFLOAT
    else if Icmp11(m, 's', 'i', 'n', 't', 'e', 'r', 's', 't', 'o', 'r', 'e') then SINTERSTORE
    else if Icmp11(m, 's', 'r', 'a', 'n', 'd', 'm', 'e', 'm', 'b', 'e', 'r') then SRANDMEMBER
    else if Icmp11(m, 's', 'u', 'n', 'i', 'o', 'n', 's', 't', 'o', 'r', 'e') then SUNIONSTORE
    else if Icmp11(m, 'z', 'i', 'n', 't', 'e', 'r', 's', 't', 'o', 'r', 'e') then ZINTERSTORE
    else if Icmp11(m, 'z', 'u', 'n', 'i', 'o', 'n', 's', 't', 'o', 'r', 'e') then ZUNIONSTORE
    else if Icmp11(m, 'z', 'r', 'a', 'n', 'g', 'e', 'b', 'y', 'l', 'e', 'x') then ZRANGEBYLEX
    else UNKNOWN
  }

  function TypeOf12(m: bytes): Cmd
    requires |m| == 12
  {
    if Icmp12(m, 'h', 'i', 'n', 'c', 'r', 'b', 'y', 'f', 'l', 'o', 'a', 't') then HINCRBYFLOAT
    else UNKNOWN
  }

  function TypeOf13(m: bytes): Cmd
    requires |m| == 13
  {
    if Icmp13(m, 'z', 'r', 'a', 'n', 'g', 'e', 'b', 'y', 's', 'c', 'o', 'r', 'e') then ZRANGEBYSCORE
    else UNKNOWN
  }

  function TypeOf14(m: bytes): Cmd
    requires |m| == 14
  {
    if Icmp14(m, 'z', 'r', 'e', 'm', 'r', 'a', 'n', 'g', 'e', 'b', 'y', 'l', 'e', 'x') then ZREMRANGEBYLEX
    else UNKNOWN
  }

  function TypeOf15(m: bytes): Cmd
    requires |m| == 15
  {
    if Icmp15(m, 'z', 'r', 'e', 'm', 'r', 'a', 'n', 'g', 'e', 'b', 'y', 'r', 'a', 'n', 'k') then ZREMRANGEBYRANK
    else UNKNOWN
  }

  function TypeOf16(m: bytes): Cmd
    requires |m| == 16
  {
    if Icmp16(m, 'z', 'r', 'e', 'm', 'r', 'a', 'n', 'g', 'e', 'b', 'y', 's', 'c', 'o', 'r', 'e')
      then ZREMRANGEBYSCORE
    else if Icmp16(m, 'z', 'r', 'e', 'v', 'r', 'a', 'n', 'g', 'e', 'b', 'y', 's', 'c', 'o', 'r', 'e')
      then ZREVRANGEBYSCORE
    else UNKNOWN
  }

  /** The command a name stands for: a switch on its length, then on its letters. */
  function TypeOf(m: bytes): Cmd
  {
    if |m| == 3 then TypeOf3(m)
    else if |m| == 4 then TypeOf4(m)
    else if |m| == 5 then TypeOf5(m)
    else if |m| == 6 then TypeOf6(m)
    else if |m| == 7 then TypeOf7(m)
    else if |m| == 8 then TypeOf8(m)
    else if |m| == 9 then TypeOf9(m)
    else if |m| == 10 then TypeOf10(m)
    else if |m| == 11 then TypeOf11(m)
    else if |m| == 12 then TypeOf12(m)
    else if |m| == 13 then TypeOf13(m)
    else if |m| == 14 then TypeOf14(m)
    else if |m| == 15 then TypeOf15(m)
    else if |m| == 16 then TypeOf16(m)
    else UNKNOWN
  }

  /** The letters of m are those of the name, in any mixture of cases. */
  ghost predicate Letters(m: bytes, name: string)
    requires |m| == |name|
  {
    forall i | 0 <= i < |m| :: Icmp(m[i], name[i])
  }

  ghost predicate Like(m: bytes, name: string) {
    |m| == |name| && Letters(m, name)
  }

  /** The protocol's names of the commands, and the types they stand for. */
  ghost predicate Spells(m: bytes, t: Cmd) {
    || (t == DEL && Like(m, "del"))
    || (t == EXISTS && Like(m, "exists"))
    || (t == EXPIRE && Like(m, "expire"))
    || (t == EXPIREAT && Like(m, "expireat"))
    || (t == PEXPIRE && Like(m, "pexpire"))
    || (t == PEXPIREAT && Like(m, "pexpireat"))
    || (t == PERSIST && Like(m, "persist"))
    || (t == PTTL && Like(m, "pttl"))
    || (t == SORT && Like(m, "sort"))
    || (t == TTL && Like(m, "ttl"))
    || (t == TYPE && Like(m, "type"))
    || (t == APPEND && Like(m, "append"))
    || (t == BITCOUNT && Like(m, "bitcount"))
    || (t == DECR && Like(m, "decr"))
    || (t == DECRBY && Like(m, "decrby"))
    || (t == DUMP && Like(m, "dump"))
    || (t == GET && Like(m, "get"))
    || (t == GETBIT && Like(m, "getbit"))
    || (t == GETRANGE && Like(m, "getrange"))
    || (t == GETSET && Like(m, "getset"))
    || (t == INCR && Like(m, "incr"))
    || (t == INCRBY && Like(m, "incrby"))
    || (t == INCRBYFLOAT && Like(m, "incrbyfloat"))
    || (t == MGET && Like(m, "mget"))
    || (t == MSET && Like(m, "mset"))
    || (t == PSETEX && Like(m, "psetex"))
    || (t == RESTORE && Like(m, "restore"))
    || (t == SET && Like(m, "set"))
    || (t == SETBIT && Like(m, "setbit"))
    || (t == SETEX && Like(m, "setex"))
    || (t == SETNX && Like(m, "setnx"))
    || (t == SETRANGE && Like(m, "setrange"))
    || (t == STRLEN && Like(m, "strlen"))
    || (t == HDEL && Like(m, "hdel"))
    || (t == HEXISTS && Like(m, "hexists"))
    || (t == HGET && Like(m, "hget"))
    || (t == HGETALL && Like(m, "hgetall"))
    || (t == HINCRBY && Like(m, "hincrby"))
    || (t == HINCRBYFLOAT && Like(m, "hincrbyfloat"))
    || (t == HKEYS && Like(m, "hkeys"))
    || (t == HLEN && Like(m, "hlen"))
    || (t == HMGET && Like(m, "hmget"))
    || (t == HMSET && Like(m, "hmset"))
    || (t == HSET && Like(m, "hset"))
    || (t == HSETNX && Like(m, "hsetnx"))
    || (t == HSCAN && Like(m, "hscan"))
    || (t == HVALS && Like(m, "hvals"))
    || (t == LINDEX && Like(m, "lindex"))
    || (t == LINSERT && Like(m, "linsert"))
    || (t == LLEN && Like(m, "llen"))
    || (t == LPOP && Like(m, "lpop"))
    || (t == LPUSH && Like(m, "lpush"))
    || (t == LPUSHX && Like(m, "lpushx"))
    || (t == LRANGE && Like(m, "lrange"))
    || (t == LREM && Like(m, "lrem"))
    || (t == LSET && Like(m, "lset"))
    || (t == LTRIM && Like(m, "ltrim"))
    || (t == PFADD && Like(m, "pfadd"))
    || (t == PFCOUNT && Like(m, "pfcount"))
    || (t == PFMERGE && Like(m, "pfmerge"))
    || (t == RPOP && Like(m, "rpop"))
    || (t == RPOPLPUSH && Like(m, "rpoplpush"))
    || (t == RPUSH && Like(m, "rpush"))
    || (t == RPUSHX && Like(m, "rpushx"))
    || (t == SADD && Like(m, "sadd"))
    || (t == SCARD && Like(m, "scard"))
    || (t == SDIFF && Like(m, "sdiff"))
    || (t == SDIFFSTORE && Like(m, "sdiffstore"))
    || (t == SINTER && Like(m, "sinter"))
    || (t == SINTERSTORE && Like(m, "sinterstore"))
    || (t == SISMEMBER && Like(m, "sismember"))
    || (t == SMEMBERS && Like(m, "smembers"))
    || (t == SMOVE && Like(m, "smove"))
    || (t == SPOP && Like(m, "spop"))
    || (t == SRANDMEMBER && Like(m, "srandmember"))
    || (t == SREM && Like(m, "srem"))
    || (t == SUNION && Like(m, "sunion"))
    || (t == SUNIONSTORE && Like(m, "sunionstore"))
    || (t == SSCAN && Like(m, "sscan"))
    || (t == ZADD && Like(m, "zadd"))
    || (t == ZCARD && Like(m, "zcard"))
    || (t == ZCOUNT && Like(m, "zcount"))
    || (t == ZINCRBY && Like(m, "zincrby"))
    || (t == ZINTERSTORE && Like(m, "zinterstore"))
    || (t == ZLEXCOUNT && Like(m, "zlexcount"))
    || (t == ZRANGE && Like(m, "zrange"))
    || (t == ZRANGEBYLEX && Like(m, "zrangebylex"))
    || (t == ZRANGEBYSCORE && Like(m, "zrangebyscore"))
    || (t == ZRANK && Like(m, "zrank"))
    || (t == ZREM && Like(m, "zrem"))
    || (t == ZREMRANGEBYRANK && Like(m, "zremrangebyrank"))
    || (t == ZREMRANGEBYLEX && Like(m, "zremrangebylex"))
    || (t == ZREMRANGEBYSCORE && Like(m, "zremrangebyscore"))
    || (t == ZREVRANGE && Like(m, "zrevrange"))
    || (t == ZREVRANGEBYSCORE && Like(m, "zrevrangebyscore"))
    || (t == ZREVRANK && Like(m, "zrevrank"))
    || (t == ZSCORE && Like(m, "zscore"))
    || (t == ZUNIONSTORE && Like(m, "zunionstore"))
    || (t == ZSCAN && Like(m, "zscan"))
    || (t == EVAL && Like(m, "eval"))
    || (t == EVALSHA && Like(m, "evalsha"))
    || (t == PING && Like(m, "ping"))
    || (t == QUIT && Like(m, "quit"))
    || (t == AUTH && Like(m, "auth"))
  }

  /** Whether m names command t, or no command when t is UNKNOWN. */
  ghost predicate Named(m: bytes, t: Cmd) {
    if t == UNKNOWN then forall u: Cmd | u != UNKNOWN :: !Spells(m, u) else Spells(m, t)
  }

  lemma Letters3(m: bytes, w: string)
    requires |m| == |w| == 3
    ensures Letters(m, w) <==>
      Icmp3(m, w[0], w[1], w[2])
  {
  }

  lemma Letters4(m: bytes, w: string)
    requires |m| == |w| == 4
    ensures Letters(m, w) <==>
      Icmp4(m, w[0], w[1], w[2], w[3])
  {
  }

  lemma Letters5(m: bytes, w: string)
    requires |m| == |w| == 5
    ensures Letters(m, w) <==>
      Icmp5(m, w[0], w[1], w[2], w[3], w[4])
  {
  }

  lemma Letters6(m: bytes, w: string)
    requires |m| == |w| == 6
    ensures Letters(m, w) <==>
      Icmp6(m, w[0], w[1], w[2], w[3], w[4], w[5])
  {
  }

  lemma Letters7(m: bytes, w: string)
    requires |m| == |w| == 7
    ensures Letters(m, w) <==>
      Icmp7(m, w[0], w[1], w[2], w[3], w[4], w[5], w[6])
  {
  }

  lemma Letters8(m: bytes, w: string)
    requires |m| == |w| == 8
    ensures Letters(m, w) <==>
      Icmp8(m, w[0], w[1], w[2], w[3], w[4], w[5], w[6], w[7])
  {
  }

  lemma Letters9(m: bytes, w: string)
    requires |m| == |w| == 9
    ensures Letters(m, w) <==>
      Icmp9(m, w[0], w[1], w[2], w[3], w[4], w[5], w[6], w[7],
        w[8])
  {
  }

  lemma Letters10(m: bytes, w: string)
    requires |m| == |w| == 10
    ensures Letters(m, w) <==>
      Icmp10(m, w[0], w[1], w[2], w[3], w[4], w[5], w[6], w[7],
        w[8], w[9])
  {
  }

  lemma Letters11(m: bytes, w: string)
    requires |m| == |w| == 11
    ensures Letters(m, w) <==>
      Icmp11(m, w[0], w[1], w[2], w[3], w[4], w[5], w[6], w[7],
        w[8], w[9], w[10])
  {
  }

  lemma Letters12(m: bytes, w: string)
    requires |m| == |w| == 12
    ensures Letters(m, w) <==>
      Icmp12(m, w[0], w[1], w[2], w[3], w[4], w[5], w[6], w[7],
        w[8], w[9], w[10], w[11])
  {
  }

  lemma Letters13(m: bytes, w: string)
    requires |m| == |w| == 13
    ensures Letters(m, w) <==>
      Icmp13(m, w[0], w[1], w[2], w[3], w[4], w[5], w[6], w[7],
        w[8], w[9], w[10], w[11], w[12])
  {
  }

  lemma Letters14(m: bytes, w: string)
    requires |m| == |w| == 14
    ensures Letters(m, w) <==>
      Icmp14(m, w[0], w[1], w[2], w[3], w[4], w[5], w[6], w[7],
        w[8], w[9], w[10], w[11], w[12], w[13])
  {
  }

  lemma Letters15(m: bytes, w: string)
    requires |m| == |w| == 15
    ensures Letters(m, w) <==>
      Icmp15(m, w[0], w[1], w[2], w[3], w[4], w[5], w[6], w[7],
        w[8], w[9], w[10], w[11], w[12], w[13], w[14])
  {
  }

  lemma Letters16(m: bytes, w: string)
    requires |m| == |w| == 16
    ensures Letters(m, w) <==>
      Icmp16(m, w[0], w[1], w[2], w[3], w[4], w[5], w[6], w[7],
        w[8], w[9], w[10], w[11], w[12], w[13], w[14], w[15])
  {
  }

  lemma Spelling3(m: bytes, t: Cmd)
    requires |m| == 3 && t != UNKNOWN
    ensures TypeOf3(m) == t <==> Spells(m, t)
    ensures UNKNOWN <= TypeOf3(m) <= LAST
  {
    hide Letters;
    Letters3(m, "del");
    Letters3(m, "ttl");
    Letters3(m, "get");
    Letters3(m, "set");
  }

  lemma Spelling4(m: bytes, t: Cmd)
    requires |m| == 4 && t != UNKNOWN
    ensures TypeOf4(m) == t <==> Spells(m, t)
    ensures UNKNOWN <= TypeOf4(m) <= LAST
  {
    hide Letters;
    Letters4(m, "pttl");
    Letters4(m, "sort");
    Letters4(m, "type");
    Letters4(m, "decr");
    Letters4(m, "dump");
    Letters4(m, "incr");
    Letters4(m, "mget");
    Letters4(m, "mset");
    Letters4(m, "hdel");
    Letters4(m, "hget");
    Letters4(m, "hlen");
    Letters4(m, "hset");
    Letters4(m, "llen");
    Letters4(m, "lpop");
    Letters4(m, "lrem");
    Letters4(m, "lset");
    Letters4(m, "rpop");
    Letters4(m, "sadd");
    Letters4(m, "spop");
    Letters4(m, "srem");
    Letters4(m, "zadd");
    Letters4(m, "zrem");
    Letters4(m, "eval");
    Letters4(m, "ping");
    Letters4(m, "quit");
    Letters4(m, "auth");
  }

  lemma Spelling5(m: bytes, t: Cmd)
    requires |m| == 5 && t != UNKNOWN
    ensures TypeOf5(m) == t <==> Spells(m, t)
    ensures UNKNOWN <= TypeOf5(m) <= LAST
  {
    hide Letters;
    Letters5(m, "setex");
    Letters5(m, "setnx");
    Letters5(m, "hkeys");
    Letters5(m, "hmget");
    Letters5(m, "hmset");
    Letters5(m, "hscan");
    Letters5(m, "hvals");
    Letters5(m, "lpush");
    Letters5(m, "ltrim");
    Letters5(m, "pfadd");
    Letters5(m, "rpush");
    Letters5(m, "scard");
    Letters5(m, "sdiff");
    Letters5(m, "smove");
    Letters5(m, "sscan");
    Letters5(m, "zcard");
    Letters5(m, "zrank");
    Letters5(m, "zscan");
  }

  lemma Spelling6(m: bytes, t: Cmd)
    requires |m| == 6 && t != UNKNOWN
    ensures TypeOf6(m) == t <==> Spells(m, t)
    ensures UNKNOWN <= TypeOf6(m) <= LAST
  {
    hide Letters;
    Letters6(m, "exists");
    Letters6(m, "expire");
    Letters6(m, "append");
    Letters6(m, "decrby");
    Letters6(m, "getbit");
    Letters6(m, "getset");
    Letters6(m, "incrby");
    Letters6(m, "psetex");
    Letters6(m, "setbit");
    Letters6(m, "strlen");
    Letters6(m, "hsetnx");
    Letters6(m, "lindex");
    Letters6(m, "lpushx");
    Letters6(m, "lrange");
    Letters6(m, "rpushx");
    Letters6(m, "sinter");
    Letters6(m, "sunion");
    Letters6(m, "zcount");
    Letters6(m, "zrange");
    Letters6(m, "zscore");
  }

  lemma Spelling7(m: bytes, t: Cmd)
    requires |m| == 7 && t != UNKNOWN
    ensures TypeOf7(m) == t <==> Spells(m, t)
    ensures UNKNOWN <= TypeOf7(m) <= LAST
  {
    hide Letters;
    Letters7(m, "pexpire");
    Letters7(m, "persist");
    Letters7(m, "restore");
    Letters7(m, "hexists");
    Letters7(m, "hgetall");
    Letters7(m, "hincrby");
    Letters7(m, "linsert");
    Letters7(m, "pfcount");
    Letters7(m, "pfmerge");
    Letters7(m, "zincrby");
    Letters7(m, "evalsha");
  }

  lemma Spelling8(m: bytes, t: Cmd)
    requires |m| == 8 && t != UNKNOWN
    ensures TypeOf8(m) == t <==> Spells(m, t)
    ensures UNKNOWN <= TypeOf8(m) <= LAST
  {
    hide Letters;
    Letters8(m, "expireat");
    Letters8(m, "bitcount");
    Letters8(m, "getrange");
    Letters8(m, "setrange");
    Letters8(m, "smembers");
    Letters8(m, "zrevrank");
  }

  lemma Spelling9(m: bytes, t: Cmd)
    requires |m| == 9 && t != UNKNOWN
    ensures TypeOf9(m) == t <==> Spells(m, t)
    ensures UNKNOWN <= TypeOf9(m) <= LAST
  {
    hide Letters;
    Letters9(m, "pexpireat");
    Letters9(m, "rpoplpush");
    Letters9(m, "sismember");
    Letters9(m, "zlexcount");
    Letters9(m, "zrevrange");
  }

  lemma Spelling10(m: bytes, t: Cmd)
    requires |m| == 10 && t != UNKNOWN
    ensures TypeOf10(m) == t <==> Spells(m, t)
    ensures UNKNOWN <= TypeOf10(m) <= LAST
  {
    hide Letters;
    Letters10(m, "sdiffstore");
  }

  lemma Spelling11(m: bytes, t: Cmd)
    requires |m| == 11 && t != UNKNOWN
    ensures TypeOf11(m) == t <==> Spells(m, t)
    ensures UNKNOWN <= TypeOf11(m) <= LAST
  {
    hide Letters;
    Letters11(m, "incrbyfloat");
    Letters11(m, "sinterstore");
    Letters11(m, "srandmember");
    Letters11(m, "sunionstore");
    Letters11(m, "zinterstore");
    Letters11(m, "zrangebylex");
    Letters11(m, "zunionstore");
  }

  lemma Spelling12(m: bytes, t: Cmd)
    requires |m| == 12 && t != UNKNOWN
    ensures TypeOf12(m) == t <==> Spells(m, t)
    ensures UNKNOWN <= TypeOf12(m) <= LAST
  {
    hide Letters;
    Letters12(m, "hincrbyfloat");
  }

  lemma Spelling13(m: bytes, t: Cmd)
    requires |m| == 13 && t != UNKNOWN
    ensures TypeOf13(m) == t <==> Spells(m, t)
    ensures UNKNOWN <= TypeOf13(m) <= LAST
  {
    hide Letters;
    Letters13(m, "zrangebyscore");
  }

  lemma Spelling14(m: bytes, t: Cmd)
    requires |m| == 14 && t != UNKNOWN
    ensures TypeOf14(m) == t <==> Spells(m, t)
    ensures UNKNOWN <= TypeOf14(m) <= LAST
  {
    hide Letters;
    Letters14(m, "zremrangebylex");
  }

  lemma Spelling15(m: bytes, t: Cmd)
    requires |m| == 15 && t != UNKNOWN
    ensures TypeOf15(m) == t <==> Spells(m, t)
    ensures UNKNOWN <= TypeOf15(m) <= LAST
  {
    hide Letters;
    Letters15(m, "zremrangebyrank");
  }

  lemma Spelling16(m: bytes, t: Cmd)
    requires |m| == 16 && t != UNKNOWN
    ensures TypeOf16(m) == t <==> Spells(m, t)
    ensures UNKNOWN <= TypeOf16(m) <= LAST
  {
    hide Letters;
    Letters16(m, "zremrangebyscore");
    Letters16(m, "zrevrangebyscore");
  }

  lemma NoSpelling(m: bytes, t: Cmd)
    requires |m| < 3 || |m| > 16
    ensures !Spells(m, t)
  {
    hide Letters;
  }

  /** A command is recognised by exactly its own name. */
  lemma TypeIsName(m: bytes, t: Cmd)
    requires t != UNKNOWN
    ensures TypeOf(m) == t <==> Spells(m, t)
    ensures UNKNOWN <= TypeOf(m) <= LAST
  {
    hide Spells, TypeOf3, TypeOf4, TypeOf5, TypeOf6, TypeOf7, TypeOf8, TypeOf9,
      TypeOf10, TypeOf11, TypeOf12, TypeOf13, TypeOf14, TypeOf15, TypeOf16;
    if |m| == 3 { Spelling3(m, t); }
    else if |m| == 4 { Spelling4(m, t); }
    else if |m| == 5 { Spelling5(m, t); }
    else if |m| == 6 { Spelling6(m, t); }
    else if |m| == 7 { Spelling7(m, t); }
    else if |m| == 8 { Spelling8(m, t); }
    else if |m| == 9 { Spelling9(m, t); }
    else if |m| == 10 { Spelling10(m, t); }
    else if |m| == 11 { Spelling11(m, t); }
    else if |m| == 12 { Spelling12(m, t); }
    else if |m| == 13 { Spelling13(m, t); }
    else if |m| == 14 { Spelling14(m, t); }
    else if |m| == 15 { Spelling15(m, t); }
    else if |m| == 16 { Spelling16(m, t); }
    else { NoSpelling(m, t); }
  }

  /** The letter switches find the one command that a name stands for. */
  lemma TypeIsNamed(m: bytes, t: Cmd)
    ensures TypeOf(m) == t <==> Named(m, t)
  {
    hide TypeOf, Spells;
    if t != UNKNOWN {
      TypeIsName(m, t);
    } else {
      forall u: Cmd | u != UNKNOWN ensures TypeOf(m) == u <==> Spells(m, u) {
        TypeIsName(m, u);
      }
      assert TypeOf(m) != UNKNOWN ==> Spells(m, TypeOf(m));
    }
  }

  /** What follows the first key: no key at all, a fixed number of arguments, any number, keys, pairs, or a script. */
  datatype Arity = NoKey | Exactly(n: nat) | AnyNumber | Keys | Pairs | Script | NoCommand

  /** The arguments of each command, in the order of the enumeration. */
  function ArityOf(t: Cmd): Arity {
    if t == DEL then Keys
    else if t == EXISTS then Exactly(0)
    else if t == EXPIRE then Exactly(1)
    else if t == EXPIREAT then Exactly(1)
    else if t == PEXPIRE then Exactly(1)
    else if t == PEXPIREAT then Exactly(1)
    else if t == PERSIST then Exactly(0)
    else if t == PTTL then Exactly(0)
    else if t == SORT then Exactly(0)
    else if t == TTL then Exactly(0)
    else if t == TYPE then Exactly(0)
    else if t == APPEND then Exactly(1)
    else if t == BITCOUNT then AnyNumber
    else if t == DECR then Exactly(0)
    else if t == DECRBY then Exactly(1)
    else if t == DUMP then Exactly(0)
    else if t == GET then Exactly(0)
    else if t == GETBIT then Exactly(1)
    else if t == GETRANGE then Exactly(2)
    else if t == GETSET then Exactly(1)
    else if t == INCR then Exactly(0)
    else if t == INCRBY then Exactly(1)
    else if t == INCRBYFLOAT then Exactly(1)
    else if t == MGET then Keys
    else if t == MSET then Pairs
    else if t == PSETEX then Exactly(2)
    else if t == RESTORE then Exactly(2)
    else if t == SET then AnyNumber
    else if t == SETBIT then Exactly(2)
    else if t == SETEX then Exactly(2)
    else if t == SETNX then Exactly(1)
    else if t == SETRANGE then Exactly(2)
    else if t == STRLEN then Exactly(0)
    else if t == HDEL then AnyNumber
    else if t == HEXISTS then Exactly(1)
    else if t == HGET then Exactly(1)
    else if t == HGETALL then Exactly(0)
    else if t == HINCRBY then Exactly(2)
    else if t == HINCRBYFLOAT then Exactly(2)
    else if t == HKEYS then Exactly(0)
    else if t == HLEN then Exactly(0)
    else if t == HMGET then AnyNumber
    else if t == HMSET then AnyNumber
    else if t == HSET then Exactly(2)
    else if t == HSETNX then Exactly(2)
    else if t == HSCAN then AnyNumber
    else if t == HVALS then Exactly(0)
    else if t == LINDEX then Exactly(1)
    else if t == LINSERT then Exactly(3)
    else if t == LLEN then Exactly(0)
    else if t == LPOP then Exactly(0)
    else if t == LPUSH then AnyNumber
    else if t == LPUSHX then Exactly(1)
    else if t == LRANGE then Exactly(2)
    else if t == LREM then Exactly(2)
    else if t == LSET then Exactly(2)
    else if t == LTRIM then Exactly(2)
    else if t == PFADD then AnyNumber
    else if t == PFCOUNT then Exactly(0)
    else if t == PFMERGE then AnyNumber
    else if t == RPOP then Exactly(0)
    else if t == RPOPLPUSH then Exactly(1)
    else if t == RPUSH then AnyNumber
    else if t == RPUSHX then Exactly(1)
    else if t == SADD then AnyNumber
    else if t == SCARD then Exactly(0)
    else if t == SDIFF then AnyNumber
    else if t == SDIFFSTORE then AnyNumber
    else if t == SINTER then AnyNumber
    else if t == SINTERSTORE then AnyNumber
    else if t == SISMEMBER then Exactly(1)
    else if t == SMEMBERS then Exactly(0)
    else if t == SMOVE then Exactly(2)
    else if t == SPOP then Exactly(0)
    else if t == SRANDMEMBER then AnyNumber
    else if t == SREM then AnyNumber
    else if t == SUNION then AnyNumber
    else if t == SUNIONSTORE then AnyNumber
    else if t == SSCAN then AnyNumber
    else if t == ZADD then AnyNumber
    else if t == ZCARD then Exactly(0)
    else if t == ZCOUNT then Exactly(2)
    else if t == ZINCRBY then Exactly(2)
    else if t == ZINTERSTORE then AnyNumber
    else if t == ZLEXCOUNT then Exactly(2)
    else if t == ZRANGE then AnyNumber
    else if t == ZRANGEBYLEX then AnyNumber
    else if t == ZRANGEBYSCORE then AnyNumber
    else if t == ZRANK then Exactly(1)
    else if t == ZREM then AnyNumber
    else if t == ZREMRANGEBYRANK then Exactly(2)
    else if t == ZREMRANGEBYLEX then Exactly(2)
    else if t == ZREMRANGEBYSCORE then Exactly(2)
    else if t == ZREVRANGE then AnyNumber
    else if t == ZREVRANGEBYSCORE then AnyNumber
    else if t == ZREVRANK then Exactly(1)
    else if t == ZSCORE then Exactly(1)
    else if t == ZUNIONSTORE then AnyNumber
    else if t == ZSCAN then AnyNumber
    else if t == EVAL then Script
    else if t == EVALSHA then Script
    else if t == PING then NoKey
    else if t == QUIT then NoKey
    else if t == AUTH then Exactly(0)
    else NoCommand
  }

  lemma FixedArity(t: Cmd)
    ensures Arg0(t) <==> ArityOf(t) == Exactly(0)
    ensures Arg1(t) <==> ArityOf(t) == Exactly(1)
    ensures Arg2(t) <==> ArityOf(t) == Exactly(2)
    ensures Arg3(t) <==> ArityOf(t) == Exactly(3)
  {}

  lemma OpenArity(t: Cmd)
    ensures ArgN(t) <==> ArityOf(t) == AnyNumber
  {}

  lemma OtherArity(t: Cmd)
    ensures ArgZ(t) <==> ArityOf(t) == NoKey
    ensures ArgX(t) <==> ArityOf(t) == Keys
    ensures ArgKvx(t) <==> ArityOf(t) == Pairs
    ensures ArgEval(t) <==> ArityOf(t) == Script
  {}

  lemma EachArity(t: Cmd)
    ensures ArityOf(t).Exactly? ==> ArityOf(t).n <= 3
    ensures ArityOf(t) == NoCommand <==> !(UNKNOWN < t <= LAST)
  {}
}
