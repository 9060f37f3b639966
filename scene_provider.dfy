/**
 * SceneProvider details: reference-counted textures of a scene. The volume
 * texture exists exactly while it is acquired; the mask texture's OpenGL
 * name is zero exactly while it is not acquired, and it is uploaded again
 * whenever the scene's mask is exchanged. Texture names are numbers given
 * by the caller, as OpenGL generates them.
 */
module SceneProviders {
  import opened Wrappers

  class SceneProviderDetails {
    var volumeTexture: Option<nat>
    var volumeTextureReferences: nat
    var maskTexture: nat
    var maskTextureReferences: nat
    var maskTextureInvalidated: bool

    /** The consistency acquireVolumeTexture and acquireMaskTexture assert. */
    predicate Valid()
      reads this
    {
      (volumeTexture.Some? <==> volumeTextureReferences > 0)
      && (maskTexture == 0 <==> maskTextureReferences == 0)
    }

    constructor()
      ensures Valid() && volumeTexture.None? && volumeTextureReferences == 0
      ensures maskTexture == 0 && maskTextureReferences == 0 && !maskTextureInvalidated
    {
      volumeTexture := None;
      volumeTextureReferences := 0;
      maskTexture := 0;
      maskTextureReferences := 0;
      maskTextureInvalidated := false;
    }

    /**
     * The destructor asserts the volume texture is no longer acquired, so a
     * provider destroyed that way holds no volume texture.
     */
    method Destroy() returns (leftover: Option<nat>)
      requires Valid() && volumeTextureReferences == 0
      ensures leftover.None? && leftover == volumeTexture
    {
      leftover := volumeTexture;
    }

    /**
     * acquireVolumeTexture: asserts the texture exists exactly while
     * referenced, creates it on the first acquisition, counts the reference
     * and returns the texture's name.
     */
    method AcquireVolumeTexture(newTexture: nat) returns (id: nat)
      requires volumeTexture.Some? <==> volumeTextureReferences > 0
      modifies this
      ensures volumeTextureReferences == old(volumeTextureReferences) + 1
      ensures volumeTexture == if old(volumeTexture).None? then Some(newTexture) else old(volumeTexture)
      ensures Some(id) == volumeTexture
      ensures maskTexture == old(maskTexture) && maskTextureReferences == old(maskTextureReferences)
      ensures maskTextureInvalidated == old(maskTextureInvalidated)
      ensures old(Valid()) ==> Valid()
    {
      if volumeTexture.None? {
        volumeTexture := Some(newTexture);
      }
      volumeTextureReferences := volumeTextureReferences + 1;
      id := volumeTexture.value;
    }

    /** releaseVolumeTexture: asserts a reference exists and drops the texture with the last one. */
    method ReleaseVolumeTexture()
      requires volumeTexture.Some? && volumeTextureReferences > 0
      modifies this
      ensures volumeTextureReferences == old(volumeTextureReferences) - 1
      ensures volumeTexture == if volumeTextureReferences == 0 then None else old(volumeTexture)
      ensures maskTexture == old(maskTexture) && maskTextureReferences == old(maskTextureReferences)
      ensures maskTextureInvalidated == old(maskTextureInvalidated)
      ensures old(Valid()) ==> Valid()
    {
      volumeTextureReferences := volumeTextureReferences - 1;
      if volumeTextureReferences == 0 {
        volumeTexture := None;
      }
    }

    /**
     * acquireMaskTexture: asserts the name is zero exactly while not
     * referenced and counts the reference; on the first one it takes the
     * name OpenGL generated, which it asserts is not zero, and uploads the
     * mask.
     */
    method AcquireMaskTexture(generated: nat) returns (id: nat)
      requires (maskTexture == 0 && maskTextureReferences == 0) || (maskTexture > 0 && maskTextureReferences > 0)
      requires maskTexture == 0 ==> generated > 0
      modifies this
      ensures maskTextureReferences == old(maskTextureReferences) + 1
      ensures maskTexture == if old(maskTexture) == 0 then generated else old(maskTexture)
      ensures maskTextureInvalidated == (old(maskTextureInvalidated) && old(maskTexture) != 0)
      ensures id == maskTexture && id > 0
      ensures volumeTexture == old(volumeTexture) && volumeTextureReferences == old(volumeTextureReferences)
      ensures old(Valid()) ==> Valid()
    {
      maskTextureReferences := maskTextureReferences + 1;
      if maskTexture == 0 {
        maskTexture := generated;
        UpdateMaskTexture();
      }
      id := maskTexture;
    }

    /** releaseMaskTexture: asserts a reference exists and deletes the texture, zeroing its name, with the last one. */
    method ReleaseMaskTexture()
      requires maskTexture > 0 && maskTextureReferences > 0
      modifies this
      ensures maskTextureReferences == old(maskTextureReferences) - 1
      ensures maskTexture == if maskTextureReferences == 0 then 0 else old(maskTexture)
      ensures maskTextureInvalidated == old(maskTextureInvalidated)
      ensures volumeTexture == old(volumeTexture) && volumeTextureReferences == old(volumeTextureReferences)
      ensures old(Valid()) ==> Valid()
    {
      maskTextureReferences := maskTextureReferences - 1;
      if maskTextureReferences == 0 {
        maskTexture := 0;
      }
    }

    /** updateMaskTexture: uploads the mask, after which it is no longer invalidated. */
    method UpdateMaskTexture()
      modifies this
      ensures !maskTextureInvalidated
      ensures volumeTexture == old(volumeTexture) && volumeTextureReferences == old(volumeTextureReferences)
      ensures maskTexture == old(maskTexture) && maskTextureReferences == old(maskTextureReferences)
    {
      maskTextureInvalidated := false;
    }

    /** invalidateMaskTexture: called when the scene's mask is exchanged. */
    method InvalidateMaskTexture()
      modifies this
      ensures maskTextureInvalidated
      ensures volumeTexture == old(volumeTexture) && volumeTextureReferences == old(volumeTextureReferences)
      ensures maskTexture == old(maskTexture) && maskTextureReferences == old(maskTextureReferences)
    {
      maskTextureInvalidated := true;
    }
  }
}
