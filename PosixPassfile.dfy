/** The permission test a password file must pass on POSIX systems before it is read. */
module PosixPassfile {
  /** `java.nio.file.attribute.PosixFilePermission`. */
  datatype PosixFilePermission =
    | OWNER_READ | OWNER_WRITE | OWNER_EXECUTE
    | GROUP_READ | GROUP_WRITE | GROUP_EXECUTE
    | OTHERS_READ | OTHERS_WRITE | OTHERS_EXECUTE

  /** `PosixPassfile.VALID_PGPASS_PERMISSIONS`. */
  const ValidPgpassPermissions: set<PosixFilePermission> := {OWNER_READ, OWNER_WRITE}

  /**
   * `PosixPassfile.hasValidPermissions(Set)`: the owner may read, and no permission
   * outside owner read and owner write is granted. Exactly modes 0400 and 0600 pass.
   */
  function HasValidPermissions(perms: set<PosixFilePermission>): (r: bool)
    ensures r <==> perms == {OWNER_READ} || perms == {OWNER_READ, OWNER_WRITE}
  {
    OWNER_READ in perms && perms - ValidPgpassPermissions == {}
  }

  /** A valid set lies within the valid permissions and contains owner read. */
  lemma ValidIsBetweenReadAndReadWrite(perms: set<PosixFilePermission>)
    ensures HasValidPermissions(perms) <==> {OWNER_READ} <= perms <= ValidPgpassPermissions
  {
  }

  /** Any group or others permission, or owner execute, makes the file unusable. */
  lemma ExtraPermissionInvalidates(perms: set<PosixFilePermission>, p: PosixFilePermission)
    requires p in perms && p !in ValidPgpassPermissions
    ensures !HasValidPermissions(perms)
  {
  }

  /** The permission table of the password-file tests. */
  lemma PermissionExamples()
    ensures !HasValidPermissions({})
    ensures HasValidPermissions({OWNER_READ})
    ensures HasValidPermissions({OWNER_READ, OWNER_WRITE})
    ensures !HasValidPermissions({OWNER_READ, OWNER_WRITE, OTHERS_READ})
    ensures !HasValidPermissions({OWNER_READ, OTHERS_READ})
  {
  }
}
