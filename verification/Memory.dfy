/** memmove and memset over byte arrays. */
module Memory {
  import opened Bytes

  /** `memmove(dst + to, src + from, n)` between different arrays. */
  method CopyBytes(src: array<byte>, from: nat, dst: array<byte>, to: nat, n: nat)
    requires src != dst && from + n <= src.Length && to + n <= dst.Length
    modifies dst
    ensures dst[..] == Overwrite(old(dst[..]), to, src[from..from + n])
  {
    ghost var before := dst[..];
    forall k | 0 <= k < n {
      dst[to + k] := src[from + k];
    }
    assert dst[..] == before[..to] + src[from..from + n] + before[to + n..];
  }

  /** `memset(dst, 0, sizeof(dst))`. */
  method Clear(dst: array<byte>)
    modifies dst
    ensures dst[..] == Zeros(dst.Length)
  {
    forall k | 0 <= k < dst.Length {
      dst[k] := 0;
    }
  }

  function Nuls(n: nat): (s: string)
    ensures |s| == n && forall i :: 0 <= i < n ==> s[i] == '\0'
  {
    seq(n, _ => '\0')
  }

  method ClearText(dst: array<char>)
    modifies dst
    ensures dst[..] == Nuls(dst.Length)
  {
    forall k | 0 <= k < dst.Length {
      dst[k] := '\0';
    }
  }

  /** A little-endian load of `size` bytes at `src + at`. */
  method Load(src: array<byte>, at: nat, size: nat) returns (value: nat)
    requires at + size <= src.Length
    ensures value == FromLittleEndian(src[..][at..at + size])
  {
    assert src[at..at + size] == src[..][at..at + size];
    value := FromLittleEndian(src[at..at + size]);
  }
}
